/**
 What every push and every read keeps, whatever the order, overlap and repetition of the substrings.
 */
module ReassemblyProofs {
  import opened Wrapping
  import opened ByteStreams
  import opened Reassembly

  // ---------- The waiting map ----------

  /** Keys ascend and no entry reaches into the next one. Entries may be empty. */
  ghost predicate Ordered(m: seq<Entry>)
  {
    forall i, j | 0 <= i < j < |m| :: m[i].start < m[j].start && m[i].End() <= m[j].start
  }

  ghost predicate From(m: seq<Entry>, w: nat)
  {
    forall e | e in m :: w <= e.start
  }

  ghost predicate Covers(m: seq<Entry>, i: nat)
  {
    exists e | e in m :: e.start <= i < e.End()
  }

  ghost predicate Agrees(S: seq<Byte>, start: nat, data: seq<Byte>)
  {
    start + |data| <= |S| && data == S[start..start + |data|]
  }

  ghost predicate AllAgree(S: seq<Byte>, m: seq<Entry>)
  {
    forall e | e in m :: Agrees(S, e.start, e.data)
  }

  lemma OrderedTail(m: seq<Entry>)
    requires Ordered(m) && m != []
    ensures Ordered(m[1..]) && From(m[1..], m[0].End()) && From(m[1..], m[0].start + 1)
  {
  }

  lemma {:induction false} ScanPast(m: seq<Entry>, lo: nat, hi: nat, data: seq<Byte>, index: nat)
    requires From(m, hi)
    ensures ScanEntries(m, lo, hi, data, index) == Scan(m, data, index)
  {
    if m != [] {
      ScanPast(m[1..], lo, hi, data, index);
    }
  }

  /** How far a scan of [lo, hi) has come when `m` is left: bytes are merged at most once at each end. */
  ghost predicate Scanning(m: seq<Entry>, lo: nat, hi: nat, data: seq<Byte>, index: nat)
  {
    && Ordered(m) && lo < hi
    && if data == [] then From(m, hi) else
       && index <= lo && hi <= index + |data|
       && (index == lo || From(m, lo + 1))
       && (index + |data| == hi || From(m, index + |data|))
  }

  ghost predicate Apart(m: seq<Entry>, lo: nat, hi: nat)
  {
    forall e | e in m :: e.End() <= lo || hi <= e.start
  }

  lemma MeetScanning(m: seq<Entry>, lo: nat, hi: nat, data: seq<Byte>, index: nat)
    requires Scanning(m, lo, hi, data, index) && m != []
    ensures var t := Meet(m[0], lo, hi, data, index);
      Scanning(m[1..], lo, hi, t.data, t.index)
  {
    OrderedTail(m);
  }

  lemma JoinAgrees(S: seq<Byte>, start: nat, a: seq<Byte>, b: seq<Byte>)
    requires Agrees(S, start, a) && Agrees(S, start + |a|, b)
    ensures Agrees(S, start, a + b)
  {
    forall k | 0 <= k < |a + b| ensures (a + b)[k] == S[start..start + |a + b|][k] {
      if k < |a| {
        assert a[k] == S[start..start + |a|][k] == S[start + k];
      } else {
        assert b[k - |a|] == S[start + |a|..start + |a| + |b|][k - |a|] == S[start + k];
      }
    }
  }

  lemma SliceAgrees(S: seq<Byte>, start: nat, d: seq<Byte>, i: nat, j: nat)
    requires Agrees(S, start, d) && i <= j <= |d|
    ensures Agrees(S, start + i, d[i..j])
  {
    forall k | 0 <= k < j - i ensures d[i..j][k] == S[start + i..start + j][k] {
      assert d[i + k] == S[start..start + |d|][i + k] == S[start + i + k];
    }
  }

  lemma MeetAgrees(m: seq<Entry>, lo: nat, hi: nat, data: seq<Byte>, index: nat, S: seq<Byte>)
    requires Scanning(m, lo, hi, data, index) && m != []
    requires Agrees(S, m[0].start, m[0].data) && (data != [] ==> Agrees(S, index, data))
    ensures var t := Meet(m[0], lo, hi, data, index);
      t.data != [] ==> Agrees(S, t.index, t.data)
  {
    var e := m[0];
    assert e in m;
    if data != [] && lo <= e.start < hi < e.End() {
      SliceAgrees(S, e.start, e.data, hi - e.start, |e.data|);
      assert e.data[hi - e.start..|e.data|] == e.data[hi - e.start..];
      JoinAgrees(S, index, data, e.data[hi - e.start..]);
    } else if data != [] && e.start < lo < e.End() < hi {
      SliceAgrees(S, e.start, e.data, 0, lo - e.start);
      assert e.data[0..lo - e.start] == e.data[..lo - e.start];
      JoinAgrees(S, e.start, e.data[..lo - e.start], data);
    }
  }

  lemma MeetCovers(m: seq<Entry>, lo: nat, hi: nat, data: seq<Byte>, index: nat, i: nat)
    requires Scanning(m, lo, hi, data, index) && m != []
    ensures var t := Meet(m[0], lo, hi, data, index);
      (t.stays && m[0].start <= i < m[0].End()) || t.index <= i < t.index + |t.data|
      <==> m[0].start <= i < m[0].End() || index <= i < index + |data|
  {
    assert m[0] in m;
  }

  lemma {:induction false} ScanKeepsOrder(m: seq<Entry>, lo: nat, hi: nat, data: seq<Byte>, index: nat)
    requires Ordered(m)
    ensures var s := ScanEntries(m, lo, hi, data, index);
      Ordered(s.kept) && forall e | e in s.kept :: e in m
  {
    if m != [] {
      OrderedTail(m);
      var t := Meet(m[0], lo, hi, data, index);
      ScanKeepsOrder(m[1..], lo, hi, t.data, t.index);
    }
  }

  /** A scan never holds more bytes than the entries and the new bytes together, nor moves below both. */
  lemma {:induction false} ScanBounds(m: seq<Entry>, lo: nat, hi: nat, data: seq<Byte>, index: nat, w: nat)
    requires From(m, w) && w <= index
    ensures var s := ScanEntries(m, lo, hi, data, index);
      w <= s.index && Unassembled(s.kept) + |s.data| <= Unassembled(m) + |data|
  {
    if m != [] {
      var t := Meet(m[0], lo, hi, data, index);
      ScanBounds(m[1..], lo, hi, t.data, t.index, w);
    }
  }

  lemma {:induction false} ScanApart(m: seq<Entry>, lo: nat, hi: nat, data: seq<Byte>, index: nat)
    requires Scanning(m, lo, hi, data, index)
    ensures var s := ScanEntries(m, lo, hi, data, index);
      s.data != [] ==> s.index <= lo && Apart(s.kept, s.index, s.index + |s.data|)
  {
    if m != [] {
      OrderedTail(m);
      MeetScanning(m, lo, hi, data, index);
      var t := Meet(m[0], lo, hi, data, index);
      ScanApart(m[1..], lo, hi, t.data, t.index);
      if m[0].start >= hi {
        ScanPast(m[1..], lo, hi, data, index);
      } else if data != [] && t == Met(true, data, index) {
        ScanBounds(m[1..], lo, hi, data, index, m[0].End());
      } else if t.data == [] {
        ScanPast(m[1..], lo, hi, [], index);
      }
    }
  }

  lemma {:induction false} ScanAgrees(m: seq<Entry>, lo: nat, hi: nat, data: seq<Byte>, index: nat, S: seq<Byte>)
    requires Scanning(m, lo, hi, data, index) && AllAgree(S, m)
    requires data != [] ==> Agrees(S, index, data)
    ensures var s := ScanEntries(m, lo, hi, data, index);
      s.data != [] ==> Agrees(S, s.index, s.data)
  {
    if m != [] {
      MeetScanning(m, lo, hi, data, index);
      MeetAgrees(m, lo, hi, data, index, S);
      var t := Meet(m[0], lo, hi, data, index);
      ScanAgrees(m[1..], lo, hi, t.data, t.index, S);
    }
  }

  lemma {:induction false} ScanCovers(m: seq<Entry>, lo: nat, hi: nat, data: seq<Byte>, index: nat, i: nat)
    requires Scanning(m, lo, hi, data, index)
    ensures var s := ScanEntries(m, lo, hi, data, index);
      Covers(s.kept, i) || s.index <= i < s.index + |s.data| <==> Covers(m, i) || index <= i < index + |data|
  {
    if m != [] {
      MeetScanning(m, lo, hi, data, index);
      MeetCovers(m, lo, hi, data, index, i);
      var t := Meet(m[0], lo, hi, data, index);
      ScanCovers(m[1..], lo, hi, t.data, t.index, i);
      assert m == [m[0]] + m[1..];
      CoversCons(m[0], m[1..], i);
      CoversCons(m[0], ScanEntries(m[1..], lo, hi, t.data, t.index).kept, i);
    }
  }

  lemma CoversCons(e: Entry, m: seq<Entry>, i: nat)
    ensures Covers([e] + m, i) <==> e.start <= i < e.End() || Covers(m, i)
  {
    assert e in [e] + m;
    assert forall x :: x in m ==> x in [e] + m;
  }

  lemma {:induction false} UnassembledConcat(a: seq<Entry>, b: seq<Entry>)
    ensures Unassembled(a + b) == Unassembled(a) + Unassembled(b)
  {
    if a == [] {
      assert a + b == b;
    } else {
      assert (a + b)[1..] == a[1..] + b;
      UnassembledConcat(a[1..], b);
    }
  }

  /** Bytes that lie apart from every entry go in, unless an (empty) entry already has their key. */
  lemma InsertKeepsOrder(m: seq<Entry>, e: Entry, full: nat)
    requires Ordered(m) && 0 < full && |e.data| <= full && Apart(m, e.start, e.start + full)
    ensures Ordered(InsertEntry(m, e))
  {
    var k := LowerBound(m, e.start);
    if !Present(m, e.start) {
      forall i | 0 <= i < k ensures m[i].End() <= e.start {
        assert m[i] in m;
      }
      forall i | k <= i < |m| ensures e.start + full <= m[i].start {
        assert m[i] in m;
        assert e.start < m[k].start <= m[i].start;
      }
      assert m[..k] + m[k..] == m;
      JoinOrdered(m[..k], e, m[k..]);
    }
  }

  lemma JoinOrdered(a: seq<Entry>, e: Entry, b: seq<Entry>)
    requires Ordered(a + b)
    requires forall i | 0 <= i < |a| :: a[i].start < e.start && a[i].End() <= e.start
    requires forall i | 0 <= i < |b| :: e.start < b[i].start && e.End() <= b[i].start
    ensures Ordered(a + [e] + b)
  {
    var m, r := a + b, a + [e] + b;
    forall i, j | 0 <= i < j < |r| ensures r[i].start < r[j].start && r[i].End() <= r[j].start {
      if i != |a| && j != |a| {
        var i', j' := if i < |a| then i else i - 1, if j < |a| then j else j - 1;
        assert m[i'] == r[i] && m[j'] == r[j];
      }
    }
  }

  lemma InsertContents(m: seq<Entry>, e: Entry)
    ensures var r := InsertEntry(m, e);
      && (forall x :: x in r <==> x in m || (x == e && !Present(m, e.start)))
      && Unassembled(r) == Unassembled(m) + if Present(m, e.start) then 0 else |e.data|
  {
    if !Present(m, e.start) {
      var k := LowerBound(m, e.start);
      UnassembledConcat(m[..k], m[k..]);
      UnassembledConcat(m[..k] + [e], m[k..]);
      UnassembledConcat(m[..k], [e]);
      assert m[..k] + m[k..] == m;
    }
  }

  // ---------- What holds between calls ----------

  /** Holds also while waiting entries are being written out. */
  ghost predicate Middle(r: Reassembler)
  {
    && r.output.Valid() && r.output.capacity == r.capacity < U64
    && r.waitIndex == r.output.written
    && Ordered(r.waiting)
    && |r.output.buf| + Unassembled(r.waiting) <= r.capacity
  }

  /** Between calls, nothing that waits could be written. */
  ghost predicate Inv(r: Reassembler)
  {
    Middle(r) && From(r.waiting, r.waitIndex + 1)
  }

  ghost predicate Content(r: Reassembler, S: seq<Byte>)
  {
    && r.output.read <= r.output.written <= |S|
    && r.output.buf == S[r.output.read..r.output.written]
    && AllAgree(S, r.waiting)
  }

  /** First index past the window: bytes read plus capacity. */
  function Edge(r: Reassembler): nat { r.output.read + r.capacity }

  ghost predicate Windowed(r: Reassembler)
  {
    forall e | e in r.waiting :: e.data != [] ==> e.End() <= Edge(r)
  }

  /** Bytes that count against the capacity. */
  function Stored(r: Reassembler): nat { |r.output.buf| + Unassembled(r.waiting) }

  /** The room left is never negative, and inside the window neither difference wraps. */
  lemma TruncSizeExact(r: Reassembler, size: nat, index: nat)
    requires Middle(r)
    ensures TruncSize(r, size, index) <= size
    ensures TruncSize(r, size, index) <= r.capacity - |r.output.buf| - Unassembled(r.waiting)
    ensures r.output.read <= index <= Edge(r) ==>
      TruncSize(r, size, index) == Min(Min(size, Edge(r) - index), r.capacity - |r.output.buf| - Unassembled(r.waiting))
  {
  }

  // ---------- Inserting ----------

  lemma StartScan(m: seq<Entry>, data: seq<Byte>, index: nat)
    requires Ordered(m) && data != []
    ensures Scanning(m, index, index + |data|, data, index)
  {
  }

  lemma {:induction false} ScanShrinks(m: seq<Entry>, lo: nat, hi: nat, data: seq<Byte>, index: nat)
    ensures Unassembled(ScanEntries(m, lo, hi, data, index).kept) <= Unassembled(m)
  {
    if m != [] {
      var t := Meet(m[0], lo, hi, data, index);
      ScanShrinks(m[1..], lo, hi, t.data, t.index);
    }
  }

  lemma StoreInv(r: Reassembler, data: seq<Byte>, index: nat)
    requires Inv(r) && data != [] && index > r.waitIndex && Apart(r.waiting, index, index + |data|)
    ensures Inv(Store(r, data, index))
  {
    TruncSizeExact(r, |data|, index);
    var e := Entry(index, Truncate(r, data, index));
    InsertKeepsOrder(r.waiting, e, |data|);
    InsertContents(r.waiting, e);
  }

  /** What is left of the map, and where the merged bytes go, once the new bytes have met every entry. */
  lemma ScanSummary(r: Reassembler, data: seq<Byte>, index: nat)
    requires Inv(r) && data != [] && index > r.waitIndex
    ensures var s := ScanEntries(r.waiting, index, index + |data|, data, index);
      && Inv(r.(waiting := s.kept))
      && (forall e | e in s.kept :: e in r.waiting)
      && (s.data != [] ==> r.waitIndex < s.index <= index && Apart(s.kept, s.index, s.index + |s.data|))
  {
    var lo, hi := index, index + |data|;
    StartScan(r.waiting, data, index);
    ScanKeepsOrder(r.waiting, lo, hi, data, index);
    ScanShrinks(r.waiting, lo, hi, data, index);
    ScanBounds(r.waiting, lo, hi, data, index, r.waitIndex + 1);
    ScanApart(r.waiting, lo, hi, data, index);
  }

  lemma InsertInv(r: Reassembler, data: seq<Byte>, index: nat)
    requires Inv(r) && data != [] && index > r.waitIndex
    ensures Inv(CheckedInsert(r, data, index))
  {
    ScanSummary(r, data, index);
    var s := ScanEntries(r.waiting, index, index + |data|, data, index);
    if s.data != [] {
      StoreInv(r.(waiting := s.kept), s.data, s.index);
    }
  }

  lemma StoreContent(r: Reassembler, data: seq<Byte>, index: nat, S: seq<Byte>)
    requires Content(r, S) && Agrees(S, index, data)
    ensures Content(Store(r, data, index), S)
  {
    InsertContents(r.waiting, Entry(index, Truncate(r, data, index)));
  }

  lemma FewerContent(r: Reassembler, m: seq<Entry>, S: seq<Byte>)
    requires Content(r, S) && forall e | e in m :: e in r.waiting
    ensures Content(r.(waiting := m), S)
  {
  }

  lemma InsertContent(r: Reassembler, data: seq<Byte>, index: nat, S: seq<Byte>)
    requires Ordered(r.waiting) && data != [] && Content(r, S) && Agrees(S, index, data)
    ensures Content(CheckedInsert(r, data, index), S)
  {
    var lo, hi := index, index + |data|;
    var s := ScanEntries(r.waiting, lo, hi, data, index);
    StartScan(r.waiting, data, index);
    ScanKeepsOrder(r.waiting, lo, hi, data, index);
    ScanAgrees(r.waiting, lo, hi, data, index, S);
    FewerContent(r, s.kept, S);
    if s.data != [] {
      StoreContent(r.(waiting := s.kept), s.data, s.index, S);
    }
  }

  // ---------- Writing out ----------

  lemma OrderedCons(e: Entry, m: seq<Entry>)
    requires Ordered(m) && From(m, e.End()) && From(m, e.start + 1)
    ensures Ordered([e] + m)
  {
    assert forall i | 0 <= i < |m| :: m[i] in m;
  }

  lemma {:induction false} TrimFacts(m: seq<Entry>, w: nat)
    requires Ordered(m)
    ensures Ordered(Trim(m, w)) && From(Trim(m, w), w)
    ensures Unassembled(Trim(m, w)) <= Unassembled(m)
  {
    if m != [] {
      OrderedTail(m);
      if w > m[0].start && m[0].End() <= w {
        TrimFacts(m[1..], w);
      } else if w > m[0].start {
        var e := Entry(w, m[0].data[w - m[0].start..]);
        OrderedCons(e, m[1..]);
        assert ([e] + m[1..])[1..] == m[1..];
      }
    }
  }

  lemma {:induction false} TrimAgrees(m: seq<Entry>, w: nat, S: seq<Byte>)
    requires AllAgree(S, m)
    ensures AllAgree(S, Trim(m, w))
  {
    if m != [] && w > m[0].start {
      assert m[0] in m;
      if m[0].End() <= w {
        TrimAgrees(m[1..], w, S);
      }
    }
  }

  lemma {:induction false} DrainInv(r: Reassembler)
    requires Middle(r)
    ensures Inv(Drain(r)) && Drain(r).waitIndex >= r.waitIndex
    ensures Drain(r).output.read == r.output.read && Drain(r).eofIndex == r.eofIndex
    ensures Drain(r).output.ended == r.output.ended && Drain(r).capacity == r.capacity
    decreases |r.waiting|
  {
    TrimFacts(r.waiting, r.waitIndex);
    TrimShrinks(r.waiting, r.waitIndex);
    var m := Trim(r.waiting, r.waitIndex);
    if m != [] {
      OrderedTail(m);
      if m[0].start == r.waitIndex {
        DrainInv(WriteOut(r.(waiting := m[1..]), m[0].data));
      }
    }
  }

  lemma WriteOutContent(r: Reassembler, data: seq<Byte>, S: seq<Byte>)
    requires Content(r, S) && r.output.Valid() && r.waitIndex == r.output.written && Agrees(S, r.waitIndex, data)
    ensures Content(WriteOut(r, data), S)
  {
  }

  lemma {:induction false} DrainContent(r: Reassembler, S: seq<Byte>)
    requires Middle(r) && Content(r, S)
    ensures Content(Drain(r), S)
    decreases |r.waiting|
  {
    TrimFacts(r.waiting, r.waitIndex);
    TrimShrinks(r.waiting, r.waitIndex);
    TrimAgrees(r.waiting, r.waitIndex, S);
    var m := Trim(r.waiting, r.waitIndex);
    if m != [] {
      OrderedTail(m);
      if m[0].start == r.waitIndex {
        assert m[0] in m;
        var r' := r.(waiting := m[1..]);
        assert Content(r', S);
        WriteOutContent(r', m[0].data, S);
        DrainContent(WriteOut(r', m[0].data), S);
      }
    }
  }

  lemma WriteOutMiddle(r: Reassembler, data: seq<Byte>)
    requires Middle(r) && |data| <= r.capacity - |r.output.buf| - Unassembled(r.waiting)
    ensures Middle(WriteOut(r, data))
  {
  }

  lemma InOrderInv(r: Reassembler, data: seq<Byte>, index: nat) returns (r': Reassembler)
    requires Inv(r) && index <= r.waitIndex < index + |data|
    ensures r' == Place(r, data, index) && Inv(r') && r'.waitIndex >= r.waitIndex
    ensures r' == r.(output := r'.output, waiting := r'.waiting, waitIndex := r'.waitIndex)
    ensures r'.output.read == r.output.read && r'.output.ended == r.output.ended
  {
    var d := Truncate(r, data[r.waitIndex - index..], index);
    TruncSizeExact(r, |data| - (r.waitIndex - index), index);
    WriteOutMiddle(r, d);
    r' := Drain(WriteOut(r, d));
    DrainInv(WriteOut(r, d));
  }

  lemma PlaceInv(r: Reassembler, data: seq<Byte>, index: nat)
    requires Inv(r) && data != [] && r.waitIndex < index + |data|
    ensures Inv(Place(r, data, index))
    ensures Place(r, data, index).waitIndex >= r.waitIndex && Place(r, data, index).eofIndex == r.eofIndex
    ensures Place(r, data, index).output.ended == r.output.ended && Place(r, data, index).output.read == r.output.read
    ensures Place(r, data, index).capacity == r.capacity
  {
    if index > r.waitIndex {
      InsertInv(r, data, index);
    } else {
      var r' := InOrderInv(r, data, index);
    }
  }

  lemma PlaceContent(r: Reassembler, data: seq<Byte>, index: nat, S: seq<Byte>)
    requires Inv(r) && data != [] && r.waitIndex < index + |data| && Content(r, S) && Agrees(S, index, data)
    ensures Content(Place(r, data, index), S)
  {
    if index > r.waitIndex {
      InsertContent(r, data, index, S);
    } else {
      var d := Truncate(r, data[r.waitIndex - index..], index);
      TruncSizeExact(r, |data| - (r.waitIndex - index), index);
      WriteOutContent(r, d, S);
      DrainContent(WriteOut(r, d), S);
    }
  }

  lemma EndIfKeeps(r: Reassembler, done: bool)
    ensures Inv(r) ==> Inv(EndIf(r, done))
    ensures forall S | Content(r, S) :: Content(EndIf(r, done), S)
    ensures Windowed(r) ==> Windowed(EndIf(r, done))
    ensures EndIf(r, done) == r.(output := r.output.(ended := r.output.ended || (r.waiting == [] && done)))
  {
  }

  /** A push leaves the state it started from, or places the substring first, and may then end the output. */
  lemma PushCases(r: Reassembler, data: seq<Byte>, index: nat, eof: bool)
    returns (r0: Reassembler, r1: Reassembler, done: bool, r': Reassembler)
    ensures r0 == r.(eofIndex := if eof then index + |data| else r.eofIndex)
    ensures if data != [] && r.waitIndex < index + |data|
            then r1 == Place(r0, data, index) && done == (r1.waitIndex == r1.eofIndex)
            else r1 == r0 && done == (r0.waitIndex >= r0.eofIndex)
    ensures r' == Push(r, data, index, eof)
    ensures r' == r1.(output := r1.output.(ended := r1.output.ended || (r1.waiting == [] && done)))
  {
    r0 := if eof then r.(eofIndex := index + |data|) else r;
    if data != [] && r.waitIndex < index + |data| {
      r1 := Place(r0, data, index);
      done := r1.waitIndex == r1.eofIndex;
    } else {
      r1 := r0;
      done := r0.waitIndex >= r0.eofIndex;
    }
    r' := EndIf(r1, done);
  }

  lemma PushInv(r: Reassembler, data: seq<Byte>, index: nat, eof: bool)
    requires Inv(r)
    ensures Inv(Push(r, data, index, eof))
    ensures Push(r, data, index, eof).waitIndex >= r.waitIndex
    ensures Push(r, data, index, eof).output.read == r.output.read
    ensures r.output.ended ==> Push(r, data, index, eof).output.ended
    ensures Push(r, data, index, eof).capacity == r.capacity
  {
    var r0, r1, done, r' := PushCases(r, data, index, eof);
    if data != [] && r.waitIndex < index + |data| {
      PlaceInv(r0, data, index);
    }
    EndIfKeeps(r1, done);
  }

  lemma PushContent(r: Reassembler, data: seq<Byte>, index: nat, eof: bool, S: seq<Byte>)
    requires Inv(r) && Content(r, S) && Agrees(S, index, data)
    ensures Content(Push(r, data, index, eof), S)
  {
    var r0, r1, done, r' := PushCases(r, data, index, eof);
    if data != [] && r.waitIndex < index + |data| {
      PlaceContent(r0, data, index, S);
    }
    EndIfKeeps(r1, done);
  }

  // ---------- The window ----------

  lemma StoreWindow(r: Reassembler, data: seq<Byte>, index: nat)
    requires Inv(r) && Windowed(r) && r.waitIndex < index <= Edge(r)
    ensures Windowed(Store(r, data, index))
  {
    TruncSizeExact(r, |data|, index);
    WindowedInsert(r, Entry(index, Truncate(r, data, index)));
  }

  lemma WindowedInsert(r: Reassembler, e: Entry)
    requires Windowed(r) && e.End() <= Edge(r)
    ensures Windowed(r.(waiting := InsertEntry(r.waiting, e)))
  {
    InsertContents(r.waiting, e);
  }

  lemma InsertWindow(r: Reassembler, data: seq<Byte>, index: nat)
    requires Inv(r) && Windowed(r) && data != [] && r.waitIndex < index <= Edge(r)
    ensures Windowed(CheckedInsert(r, data, index))
  {
    ScanSummary(r, data, index);
    var s := ScanEntries(r.waiting, index, index + |data|, data, index);
    if s.data != [] {
      StoreWindow(r.(waiting := s.kept), s.data, s.index);
    }
  }

  ghost predicate EndBy(m: seq<Entry>, b: nat)
  {
    forall e | e in m :: e.data != [] ==> e.End() <= b
  }

  lemma {:induction false} TrimEndBy(m: seq<Entry>, w: nat, b: nat)
    requires EndBy(m, b)
    ensures EndBy(Trim(m, w), b)
  {
    if m != [] && w > m[0].start {
      assert m[0] in m;
      if m[0].End() <= w {
        TrimEndBy(m[1..], w, b);
      }
    }
  }

  lemma {:induction false} DrainEndBy(r: Reassembler, b: nat)
    requires EndBy(r.waiting, b)
    ensures EndBy(Drain(r).waiting, b)
    decreases |r.waiting|
  {
    TrimShrinks(r.waiting, r.waitIndex);
    TrimEndBy(r.waiting, r.waitIndex, b);
    var m := Trim(r.waiting, r.waitIndex);
    if m != [] && m[0].start == r.waitIndex {
      DrainEndBy(WriteOut(r.(waiting := m[1..]), m[0].data), b);
    }
  }

  lemma PlaceWindow(r: Reassembler, data: seq<Byte>, index: nat) returns (r': Reassembler)
    requires Inv(r) && Windowed(r) && index <= Edge(r) && data != [] && r.waitIndex < index + |data|
    ensures r' == Place(r, data, index) && EndBy(r'.waiting, Edge(r))
  {
    r' := Place(r, data, index);
    if index > r.waitIndex {
      InsertWindow(r, data, index);
    } else {
      var d := Truncate(r, data[r.waitIndex - index..], index);
      DrainEndBy(WriteOut(r, d), Edge(r));
    }
  }

  /** Pushes that start at or before the edge keep every waiting byte before the edge. */
  lemma PushWindow(r: Reassembler, data: seq<Byte>, index: nat, eof: bool)
    requires Inv(r) && Windowed(r) && index <= Edge(r)
    ensures Windowed(Push(r, data, index, eof))
  {
    var r0, r1, done, r' := PushCases(r, data, index, eof);
    PushInv(r, data, index, eof);
    if data != [] && r.waitIndex < index + |data| {
      var r2 := PlaceWindow(r0, data, index);
    }
  }

  /** Disjoint intervals inside [a, b) have no more bytes than [a, b). */
  lemma {:induction false} CountDisjoint(m: seq<Entry>, a: nat, b: nat)
    requires Ordered(m) && From(m, a) && EndBy(m, b) && a <= b
    ensures Unassembled(m) <= b - a
  {
    if m != [] {
      OrderedTail(m);
      assert m[0] in m;
      if m[0].data == [] {
        CountDisjoint(m[1..], a, b);
      } else {
        CountDisjoint(m[1..], m[0].End(), b);
      }
    }
  }

  /** While the output has room there is always room for the next byte in order, if all that waits is in the window. */
  lemma RoomForNext(r: Reassembler)
    requires Inv(r) && Windowed(r) && |r.output.buf| < r.capacity
    ensures Stored(r) < r.capacity
  {
    CountDisjoint(r.waiting, r.waitIndex + 1, Edge(r));
  }

  // ---------- Beyond the window ----------

  lemma {:induction false} LowerBoundOf(m: seq<Entry>, k: nat)
    requires Ordered(m) && k < |m|
    ensures LowerBound(m, m[k].start) == k
  {
    if k > 0 {
      OrderedTail(m);
      LowerBoundOf(m[1..], k - 1);
    }
  }

  lemma PresentIff(m: seq<Entry>, key: nat)
    requires Ordered(m)
    ensures Present(m, key) <==> exists e | e in m :: e.start == key
  {
    if e :| e in m && e.start == key {
      var k :| 0 <= k < |m| && m[k] == e;
      LowerBoundOf(m, k);
    }
  }

  /** Bytes above every byte that waits meet only empty entries, and drop those that they cover. */
  lemma {:induction false} ScanBeyond(m: seq<Entry>, lo: nat, hi: nat, data: seq<Byte>)
    requires EndBy(m, lo)
    ensures var s := ScanEntries(m, lo, hi, data, lo);
      && s.data == data && s.index == lo && Unassembled(s.kept) == Unassembled(m)
      && (forall e | e in s.kept :: e in m) && (forall e | e in m && e.start <= lo :: e in s.kept)
  {
    if m != [] {
      assert m[0] in m;
      ScanBeyond(m[1..], lo, hi, data);
    }
  }

  lemma TruncSizeBeyond(r: Reassembler, size: nat, index: nat)
    requires Middle(r) && Edge(r) < index < U64 && size > 0
    ensures TruncSize(r, size, index) == 0 <==> Stored(r) == r.capacity
  {
    assert 0 < (Edge(r) - index) % U64;
  }

  lemma StoreBeyondIff(r: Reassembler, data: seq<Byte>, index: nat)
    requires Inv(r) && Windowed(r) && Edge(r) < index < U64 && data != []
    ensures Windowed(Store(r, data, index)) <==> Stored(r) == r.capacity || Present(r.waiting, index)
  {
    TruncSizeBeyond(r, |data|, index);
    WindowedInsertIff(r, Entry(index, Truncate(r, data, index)));
  }

  lemma WindowedInsertIff(r: Reassembler, e: Entry)
    requires Windowed(r) && e.start > Edge(r)
    ensures Windowed(r.(waiting := InsertEntry(r.waiting, e))) <==> e.data == [] || Present(r.waiting, e.start)
  {
    InsertContents(r.waiting, e);
    assert !Present(r.waiting, e.start) ==> e in InsertEntry(r.waiting, e);
  }

  lemma PresentSame(m: seq<Entry>, kept: seq<Entry>, key: nat)
    requires Ordered(m) && Ordered(kept) && (forall e | e in kept :: e in m)
    requires forall e | e in m && e.start <= key :: e in kept
    ensures Present(kept, key) <==> Present(m, key)
  {
    PresentIff(m, key);
    PresentIff(kept, key);
  }

  lemma ScanBeyondMap(m: seq<Entry>, data: seq<Byte>, index: nat) returns (s: Scan)
    requires Ordered(m) && EndBy(m, index)
    ensures s == ScanEntries(m, index, index + |data|, data, index) && s.data == data && s.index == index
    ensures Ordered(s.kept) && Unassembled(s.kept) == Unassembled(m) && (forall e | e in s.kept :: e in m)
    ensures Present(s.kept, index) <==> Present(m, index)
  {
    s := ScanEntries(m, index, index + |data|, data, index);
    ScanKeepsOrder(m, index, index + |data|, data, index);
    BeyondPresent(m, data, index, s);
  }

  lemma BeyondPresent(m: seq<Entry>, data: seq<Byte>, index: nat, s: Scan)
    requires Ordered(m) && EndBy(m, index)
    requires s == ScanEntries(m, index, index + |data|, data, index) && Ordered(s.kept)
    ensures s.data == data && s.index == index && Unassembled(s.kept) == Unassembled(m)
    ensures Present(s.kept, index) <==> Present(m, index)
  {
    ScanBeyond(m, index, index + |data|, data);
    PresentSame(m, s.kept, index);
  }

  lemma FewerInv(r: Reassembler, m: seq<Entry>)
    requires Inv(r) && Windowed(r) && Ordered(m) && Unassembled(m) == Unassembled(r.waiting)
    requires forall e | e in m :: e in r.waiting
    ensures var r1 := r.(waiting := m); Inv(r1) && Windowed(r1) && Stored(r1) == Stored(r)
  {
  }

  lemma ScanBeyondSummary(r: Reassembler, data: seq<Byte>, index: nat) returns (s: Scan)
    requires Inv(r) && Windowed(r) && Edge(r) <= index
    ensures s == ScanEntries(r.waiting, index, index + |data|, data, index) && s.data == data && s.index == index
    ensures var r1 := r.(waiting := s.kept); Inv(r1) && Windowed(r1) && Stored(r1) == Stored(r)
    ensures Present(s.kept, index) <==> Present(r.waiting, index)
  {
    s := ScanBeyondMap(r.waiting, data, index);
    FewerInv(r, s.kept);
  }

  lemma InsertBeyondIff(r: Reassembler, data: seq<Byte>, index: nat)
    requires Inv(r) && Windowed(r) && Edge(r) < index < U64 && data != []
    ensures Windowed(CheckedInsert(r, data, index)) <==> Stored(r) == r.capacity || Present(r.waiting, index)
  {
    var s := ScanBeyondSummary(r, data, index);
    StoreBeyondIff(r.(waiting := s.kept), data, index);
  }

  /**
   The difference for the edge wraps when a push starts beyond it. Bytes are then stored outside the window, except
   exactly if there is no room at all or an empty entry has the key.
   */
  lemma PushBeyondIff(r: Reassembler, data: seq<Byte>, index: nat, eof: bool)
    requires Inv(r) && Windowed(r) && Edge(r) < index < U64 && data != []
    ensures Windowed(Push(r, data, index, eof)) <==> Stored(r) == r.capacity || Present(r.waiting, index)
  {
    var r0, r1, done, r' := PushCases(r, data, index, eof);
    InsertBeyondIff(r0, data, index);
    EndIfKeeps(r1, done);
  }

  /** So a push keeps all that waits in the window exactly if it starts there, or nothing of it is stored. */
  lemma PushWindowIff(r: Reassembler, data: seq<Byte>, index: nat, eof: bool)
    requires Inv(r) && Windowed(r) && index < U64
    ensures Windowed(Push(r, data, index, eof)) <==>
      data == [] || index <= Edge(r) || Stored(r) == r.capacity || Present(r.waiting, index)
  {
    if data == [] {
      var r0, r1, done, r' := PushCases(r, data, index, eof);
      EndIfKeeps(r1, done);
    } else if index <= Edge(r) {
      PushWindow(r, data, index, eof);
    } else {
      PushBeyondIff(r, data, index, eof);
    }
  }

  lemma PushFirst(r: Reassembler, data: seq<Byte>, index: nat)
    requires r.waiting == [] && data != [] && index > r.waitIndex
    ensures Push(r, data, index, false) == r.(waiting := [Entry(index, Truncate(r, data, index))])
  {
    var r0, r1, done, r' := PushCases(r, data, index, false);
    assert r.(waiting := []) == r;
    assert CheckedInsert(r, data, index) == Store(r, data, index);
  }

  lemma BeyondEdge()
    ensures var r := Push(Fresh(4), [7], 5, false); r.waiting == [Entry(5, [7])] && !Windowed(r)
  {
    PushFirst(Fresh(4), [7], 5);
    assert TruncSize(Fresh(4), 1, 5) == 1 && [7][..1] == [7];
    assert Entry(5, [7]) in [Entry(5, [7])];
  }

  // ---------- Progress ----------

  /** How many new bytes a push at or before the awaited index may write. */
  function Room(r: Reassembler, index: nat): int {
    Min((Edge(r) - index) % U64, r.capacity - Stored(r))
  }

  lemma TruncSizeRoom(r: Reassembler, size: nat, index: nat)
    requires Middle(r)
    ensures TruncSize(r, size, index) == Min(size, Room(r, index))
  {
  }

  lemma RoomInOrder(r: Reassembler, index: nat)
    requires Middle(r) && index <= r.waitIndex && Edge(r) < U64
    ensures Room(r, index) == r.capacity - Stored(r)
  {
  }

  lemma WriteOutAdvances(r: Reassembler, data: seq<Byte>)
    requires Middle(r) && |data| <= r.capacity - Stored(r)
    ensures WriteOut(r, data).waitIndex == r.waitIndex + if r.output.ended then 0 else |data|
  {
  }

  lemma TrimNothing(m: seq<Entry>, w: nat)
    requires From(m, w)
    ensures Trim(m, w) == m
  {
    assert m != [] ==> m[0] in m;
  }

  lemma DrainNothing(r: Reassembler)
    requires From(r.waiting, r.waitIndex + 1)
    ensures Drain(r) == r
  {
    TrimNothing(r.waiting, r.waitIndex);
    assert r.waiting != [] ==> r.waiting[0] in r.waiting;
  }

  lemma PlaceAdvances(r: Reassembler, data: seq<Byte>, index: nat) returns (r': Reassembler)
    requires Inv(r) && index <= r.waitIndex < index + |data|
    ensures r' == Place(r, data, index)
    ensures !r.output.ended ==> r'.waitIndex >= r.waitIndex + Min(index + |data| - r.waitIndex, Room(r, index))
    ensures r.output.ended || Room(r, index) == 0 ==> r'.waitIndex == r.waitIndex
  {
    var d := data[r.waitIndex - index..];
    TruncSizeRoom(r, |d|, index);
    var cut := Truncate(r, d, index);
    var r1 := WriteOut(r, cut);
    WriteOutAdvances(r, cut);
    WriteOutMiddle(r, cut);
    DrainInv(r1);
    r' := Drain(r1);
    if r1.waitIndex == r.waitIndex {
      DrainNothing(r1);
    }
  }

  lemma PlaceProgress(r: Reassembler, data: seq<Byte>, index: nat)
    requires Inv(r) && Edge(r) < U64 && index <= r.waitIndex < index + |data|
    ensures !r.output.ended ==>
      Place(r, data, index).waitIndex >= r.waitIndex + Min(index + |data| - r.waitIndex, r.capacity - Stored(r))
    ensures Place(r, data, index).waitIndex > r.waitIndex <==> !r.output.ended && Stored(r) < r.capacity
  {
    var r' := PlaceAdvances(r, data, index);
    RoomInOrder(r, index);
  }

  /**
   A push that covers the awaited byte writes at least all its new bytes or all there is room for. It advances if and
   only if the output is open and less than the capacity is stored.
   */
  lemma Progress(r: Reassembler, data: seq<Byte>, index: nat, eof: bool)
    requires Inv(r) && Edge(r) < U64 && index <= r.waitIndex < index + |data|
    ensures !r.output.ended ==>
      Push(r, data, index, eof).waitIndex >= r.waitIndex + Min(index + |data| - r.waitIndex, r.capacity - Stored(r))
    ensures Push(r, data, index, eof).waitIndex > r.waitIndex <==> !r.output.ended && Stored(r) < r.capacity
  {
    var r0, r1, done, r' := PushCases(r, data, index, eof);
    PlaceProgress(r0, data, index);
  }

  /** Bytes beyond the window can take all the room: the output is empty and open, and its next byte is refused. */
  lemma Stuck()
    ensures var r := Push(Fresh(4), [6, 7, 8, 9], 5, false);
      && r.output == Empty(4) && r.waiting == [Entry(5, [6, 7, 8, 9])]
      && Push(r, [1], 0, false).waitIndex == 0
  {
    var r := Push(Fresh(4), [6, 7, 8, 9], 5, false);
    PushFirst(Fresh(4), [6, 7, 8, 9], 5);
    assert TruncSize(Fresh(4), 4, 5) == 4 && [6, 7, 8, 9][..4] == [6, 7, 8, 9];
    PushInv(Fresh(4), [6, 7, 8, 9], 5, false);
    Progress(r, [1], 0, false);
    PushInv(r, [1], 0, false);
  }
}
