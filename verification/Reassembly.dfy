/**
 Reassembling a byte stream from substrings that arrive in any order, overlap and repeat.
 Substrings that cannot be written yet wait in a map from first index to bytes, held here as a
 sequence of entries in key order.
 */
module Reassembly {
  import opened Wrapping
  import opened ByteStreams

  datatype Entry = Entry(start: nat, data: seq<Byte>)
  {
    function End(): nat { start + |data| }
  }

  datatype Reassembler = Reassembler(output: Stream, waiting: seq<Entry>, capacity: nat, waitIndex: nat, eofIndex: nat)

  /** The largest `size_t`, which stands for "no end of stream seen yet". */
  const NO_EOF: nat := U64 - 1

  function Fresh(capacity: nat): Reassembler {
    Reassembler(Empty(capacity), [], capacity, 0, NO_EOF)
  }

  function Unassembled(m: seq<Entry>): nat {
    if m == [] then 0 else |m[0].data| + Unassembled(m[1..])
  }

  /** How much of `size` bytes at `index` may be stored. Both differences are 64-bit and may wrap. */
  function TruncSize(r: Reassembler, size: nat, index: nat): nat {
    Min(Min(size, (r.capacity + r.output.read - index) % U64),
        (r.capacity - |r.output.buf| - Unassembled(r.waiting)) % U64)
  }

  function Truncate(r: Reassembler, data: seq<Byte>, index: nat): seq<Byte> {
    data[..TruncSize(r, |data|, index)]
  }

  // ---------- Inserting into the waiting map ----------

  /** New bytes `data` at `index`, and whether the entry they met stays in the map. */
  datatype Met = Met(stays: bool, data: seq<Byte>, index: nat)

  /** The new bytes, which occupied [lo, hi) before any merge, meet the entry `e`. */
  function Meet(e: Entry, lo: nat, hi: nat, data: seq<Byte>, index: nat): Met {
    if lo < e.End() && e.start < hi then
      if lo <= e.start && e.End() <= hi then Met(false, data, index)
      else if e.start <= lo && hi <= e.End() then Met(true, [], index)
      else if lo <= e.start then Met(false, data + e.data[hi - e.start..], index)
      else Met(false, e.data[..lo - e.start] + data, e.start)
    else
      Met(true, data, index)
  }

  datatype Scan = Scan(kept: seq<Entry>, data: seq<Byte>, index: nat)

  /** Meets the entries of `m` in key order. */
  function ScanEntries(m: seq<Entry>, lo: nat, hi: nat, data: seq<Byte>, index: nat): Scan {
    if m == [] then Scan([], data, index) else
    var t := Meet(m[0], lo, hi, data, index);
    var s := ScanEntries(m[1..], lo, hi, t.data, t.index);
    if t.stays then s.(kept := [m[0]] + s.kept) else s
  }

  /** The position of the first entry whose key is not below `key`. */
  function LowerBound(m: seq<Entry>, key: nat): (k: nat)
    ensures k <= |m|
    ensures forall i | 0 <= i < k :: m[i].start < key
    ensures k < |m| ==> key <= m[k].start
  {
    if m == [] || key <= m[0].start then 0 else 1 + LowerBound(m[1..], key)
  }

  predicate Present(m: seq<Entry>, key: nat) {
    var k := LowerBound(m, key);
    k < |m| && m[k].start == key
  }

  /** Insertion into an ordered map: a key that is already there keeps its value. */
  function InsertEntry(m: seq<Entry>, e: Entry): seq<Entry> {
    var k := LowerBound(m, e.start);
    if Present(m, e.start) then m else m[..k] + [e] + m[k..]
  }

  function Store(r: Reassembler, data: seq<Byte>, index: nat): Reassembler {
    r.(waiting := InsertEntry(r.waiting, Entry(index, Truncate(r, data, index))))
  }

  function CheckedInsert(r: Reassembler, data: seq<Byte>, index: nat): Reassembler {
    var s := ScanEntries(r.waiting, index, index + |data|, data, index);
    var r1 := r.(waiting := s.kept);
    if s.data == [] then r1 else Store(r1, s.data, s.index)
  }

  // ---------- Writing in order ----------

  /** The entries of `m` cut down to the bytes at `w` and above. */
  function Trim(m: seq<Entry>, w: nat): seq<Entry> {
    if m == [] || w <= m[0].start then m
    else if m[0].End() > w then [Entry(w, m[0].data[w - m[0].start..])] + m[1..]
    else Trim(m[1..], w)
  }

  function WriteOut(r: Reassembler, data: seq<Byte>): Reassembler {
    r.(output := r.output.Write(data), waitIndex := r.waitIndex + r.output.Accepted(data))
  }

  /** Writes every waiting entry that has become contiguous with the output. */
  function Drain(r: Reassembler): Reassembler
    decreases |r.waiting|
  {
    TrimShrinks(r.waiting, r.waitIndex);
    var m := Trim(r.waiting, r.waitIndex);
    if m == [] || m[0].start != r.waitIndex then r.(waiting := m)
    else Drain(WriteOut(r.(waiting := m[1..]), m[0].data))
  }

  lemma {:induction false} TrimShrinks(m: seq<Entry>, w: nat)
    ensures |Trim(m, w)| <= |m|
  {
    if m != [] && w > m[0].start && m[0].End() <= w {
      TrimShrinks(m[1..], w);
    }
  }

  // ---------- Pushing a substring ----------

  function EndIf(r: Reassembler, done: bool): Reassembler {
    if r.waiting == [] && done then r.(output := r.output.EndInput()) else r
  }

  function Place(r: Reassembler, data: seq<Byte>, index: nat): Reassembler
    requires data != [] && r.waitIndex < index + |data|
  {
    if index > r.waitIndex then CheckedInsert(r, data, index)
    else Drain(WriteOut(r, Truncate(r, data[r.waitIndex - index..], index)))
  }

  function Push(r: Reassembler, data: seq<Byte>, index: nat, eof: bool): Reassembler {
    var r0 := if eof then r.(eofIndex := index + |data|) else r;
    var startPos := if index < r.waitIndex then r.waitIndex - index else 0;
    if startPos >= |data| then EndIf(r0, r0.waitIndex >= r0.eofIndex)
    else
      var r1 := Place(r0, data, index);
      EndIf(r1, r1.waitIndex == r1.eofIndex)
  }

  function ReadOut(r: Reassembler, len: nat): Reassembler {
    r.(output := r.output.Pop(len))
  }
}
