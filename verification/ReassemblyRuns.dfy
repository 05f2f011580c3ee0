/**
 Whole runs of the reassembler: any substrings in any order, with reads in between.
 */
module ReassemblyRuns {
  import opened Wrapping
  import opened Reassembly
  import opened ReassemblyProofs
  import opened ReassemblyHeld

  datatype Event = PushEvent(data: seq<Byte>, index: nat, eof: bool) | ReadEvent(len: nat)

  /** The reassembler and every byte read from its output so far. */
  datatype Tracked = Tracked(r: Reassembler, taken: seq<Byte>)

  function Step(t: Tracked, e: Event): Tracked {
    match e
    case PushEvent(data, index, eof) => t.(r := Push(t.r, data, index, eof))
    case ReadEvent(len) => Tracked(ReadOut(t.r, len), t.taken + t.r.output.Peek(len))
  }

  function Run(capacity: nat, events: seq<Event>): Tracked {
    if events == [] then Tracked(Fresh(capacity), [])
    else Step(Run(capacity, events[..|events|-1]), events[|events|-1])
  }

  // ---------- Content and capacity ----------

  ghost predicate PushesAgree(events: seq<Event>, S: seq<Byte>)
  {
    forall e | e in events :: e.PushEvent? ==> Agrees(S, e.index, e.data)
  }

  lemma ReadKeeps(r: Reassembler, len: nat)
    requires Inv(r)
    ensures Inv(ReadOut(r, len))
    ensures forall S | Content(r, S) :: Content(ReadOut(r, len), S)
    ensures Windowed(r) ==> Windowed(ReadOut(r, len))
  {
  }

  /** Map and capacity invariant, for every run: nothing is assumed of the substrings. */
  lemma {:induction false} RunInv(capacity: nat, events: seq<Event>)
    requires capacity < U64
    ensures Inv(Run(capacity, events).r) && Run(capacity, events).r.capacity == capacity
  {
    if events != [] {
      var before := events[..|events|-1];
      RunInv(capacity, before);
      match events[|events|-1]
      case PushEvent(data, index, eof) => PushInv(Run(capacity, before).r, data, index, eof);
      case ReadEvent(len) => ReadKeeps(Run(capacity, before).r, len);
    }
  }

  lemma StepContent(t: Tracked, e: Event, S: seq<Byte>)
    requires Inv(t.r) && Content(t.r, S) && t.taken == S[..t.r.output.read]
    requires e.PushEvent? ==> Agrees(S, e.index, e.data)
    ensures Content(Step(t, e).r, S) && Step(t, e).taken == S[..Step(t, e).r.output.read]
  {
    match e
    case PushEvent(data, index, eof) =>
      PushContent(t.r, data, index, eof, S);
      PushInv(t.r, data, index, eof);
    case ReadEvent(len) =>
      ReadKeeps(t.r, len);
  }

  lemma {:induction false} RunAgrees(capacity: nat, events: seq<Event>, S: seq<Byte>) returns (t: Tracked)
    requires capacity < U64 && PushesAgree(events, S)
    ensures t == Run(capacity, events)
    ensures Inv(t.r) && Content(t.r, S) && t.taken == S[..t.r.output.read]
  {
    if events == [] {
      t := Tracked(Fresh(capacity), []);
    } else {
      var before, last := events[..|events|-1], events[|events|-1];
      assert last in events;
      var t0 := RunAgrees(capacity, before, S);
      StepContent(t0, last, S);
      RunInv(capacity, events);
      t := Step(t0, last);
    }
  }

  /** Everything read, then everything buffered, is the stream up to the awaited index; what waits belongs to it. */
  lemma RunContent(capacity: nat, events: seq<Event>, S: seq<Byte>) returns (t: Tracked)
    requires capacity < U64 && PushesAgree(events, S)
    ensures t == Run(capacity, events)
    ensures Content(t.r, S) && t.taken == S[..t.r.output.read]
    ensures t.taken + t.r.output.buf == S[..t.r.output.written]
    ensures t.r.output.written == t.r.waitIndex
  {
    t := RunAgrees(capacity, events, S);
  }

  // ---------- End of stream ----------

  ghost predicate EofsAgree(events: seq<Event>, S: seq<Byte>)
  {
    forall e | e in events :: e.PushEvent? && e.eof ==> e.index + |e.data| == |S|
  }

  ghost predicate EofSeen(events: seq<Event>)
  {
    exists e | e in events :: e.PushEvent? && e.eof
  }

  lemma PushEnds(r: Reassembler, data: seq<Byte>, index: nat, eof: bool, S: seq<Byte>)
    requires Inv(r) && Content(r, S) && Agrees(S, index, data) && |S| < NO_EOF
    requires eof ==> index + |data| == |S|
    requires if r.eofIndex == NO_EOF then !r.output.ended
             else r.eofIndex == |S| && (r.output.ended <==> r.waitIndex == |S|)
    ensures var r' := Push(r, data, index, eof);
      && r'.eofIndex == (if eof then |S| else r.eofIndex)
      && if r'.eofIndex == NO_EOF then !r'.output.ended else (r'.output.ended <==> r'.waitIndex == |S|)
  {
    var r0, r1, done, r' := PushCases(r, data, index, eof);
    if data != [] && r.waitIndex < index + |data| {
      PlaceInv(r0, data, index);
      PlaceContent(r0, data, index, S);
    }
    assert r1.waiting != [] ==> r1.waiting[0] in r1.waiting;
  }

  /** Once an end of stream has been seen, the output is ended if and only if every byte has been written. */
  lemma {:induction false} RunEnds(capacity: nat, events: seq<Event>, S: seq<Byte>)
    requires capacity < U64 && |S| < NO_EOF && PushesAgree(events, S) && EofsAgree(events, S)
    ensures var r := Run(capacity, events).r;
      && r.eofIndex == (if EofSeen(events) then |S| else NO_EOF)
      && (r.output.ended <==> EofSeen(events) && r.output.written == |S|)
  {
    RunInv(capacity, events);
    if events != [] {
      var before, last := events[..|events|-1], events[|events|-1];
      RunEnds(capacity, before, S);
      var t := RunContent(capacity, before, S);
      RunInv(capacity, before);
      assert events == before + [last];
      assert EofSeen(events) <==> EofSeen(before) || (last.PushEvent? && last.eof);
      if last.PushEvent? {
        assert last in events;
        PushEnds(Run(capacity, before).r, last.data, last.index, last.eof, S);
      }
    }
  }

  // ---------- The window ----------

  ghost predicate StartInWindow(capacity: nat, events: seq<Event>)
  {
    forall k | 0 <= k < |events| :: events[k].PushEvent? ==> events[k].index <= Edge(Run(capacity, events[..k]).r)
  }

  /** If every push starts at or before the edge, all that waits is in the window. */
  lemma {:induction false} RunWindow(capacity: nat, events: seq<Event>)
    requires capacity < U64 && StartInWindow(capacity, events)
    ensures Windowed(Run(capacity, events).r)
  {
    if events != [] {
      var before, last := events[..|events|-1], events[|events|-1];
      assert forall k | 0 <= k < |before| :: before[k] == events[k] && before[..k] == events[..k];
      RunWindow(capacity, before);
      RunInv(capacity, before);
      match last
      case PushEvent(data, index, eof) => PushWindow(Run(capacity, before).r, data, index, eof);
      case ReadEvent(len) => ReadKeeps(Run(capacity, before).r, len);
    }
  }

  // ---------- Completeness ----------

  /** Every push is in the window when it comes. */
  ghost predicate AllInWindow(capacity: nat, events: seq<Event>)
  {
    forall k | 0 <= k < |events| :: events[k].PushEvent? ==>
      InWindow(Run(capacity, events[..k]).r, events[k].data, events[k].index)
  }

  /** One of the pushes added byte `i`. */
  ghost predicate EverAdded(capacity: nat, events: seq<Event>, i: nat)
  {
    exists k | 0 <= k < |events| :: events[k].PushEvent? &&
      Added(Run(capacity, events[..k]).r, events[k].data, events[k].index, i)
  }

  lemma EverAddedStep(capacity: nat, events: seq<Event>, i: nat)
    requires events != []
    ensures var before, last := events[..|events|-1], events[|events|-1];
      EverAdded(capacity, events, i) <==>
        EverAdded(capacity, before, i) || (last.PushEvent? && Added(Run(capacity, before).r, last.data, last.index, i))
  {
    var before := events[..|events|-1];
    assert forall k | 0 <= k < |before| :: before[k] == events[k] && before[..k] == events[..k];
  }

  lemma AllInWindowBefore(capacity: nat, events: seq<Event>)
    requires AllInWindow(capacity, events) && events != []
    ensures AllInWindow(capacity, events[..|events|-1])
  {
    var before := events[..|events|-1];
    assert forall k | 0 <= k < |before| :: before[k] == events[k] && before[..k] == events[..k];
  }

  /** Over every run of pushes in the window, exactly the bytes added are held, */
  lemma {:induction false} RunHolds(capacity: nat, events: seq<Event>, i: nat)
    requires capacity < U64 && AllInWindow(capacity, events)
    ensures Complete(Run(capacity, events).r)
    ensures Holds(Run(capacity, events).r, i) <==> EverAdded(capacity, events, i)
  {
    if events != [] {
      var before, last := events[..|events|-1], events[|events|-1];
      AllInWindowBefore(capacity, events);
      RunHolds(capacity, before, i);
      EverAddedStep(capacity, events, i);
      var r := Run(capacity, before).r;
      match last
      case PushEvent(data, index, eof) => PushHolds(r, data, index, eof, i);
      case ReadEvent(len) => ReadKeeps(r, len);
    }
  }

  /** and the output is the longest prefix of them. */
  lemma RunComplete(capacity: nat, events: seq<Event>)
    requires capacity < U64 && AllInWindow(capacity, events)
    ensures var n := Run(capacity, events).r.output.written;
      (forall i: nat | i < n :: EverAdded(capacity, events, i)) && !EverAdded(capacity, events, n)
  {
    var r := Run(capacity, events).r;
    RunHolds(capacity, events, r.waitIndex);
    forall i: nat | i < r.waitIndex ensures EverAdded(capacity, events, i) {
      RunHolds(capacity, events, i);
    }
  }

  ghost predicate Pushed(events: seq<Event>, i: nat)
  {
    exists e | e in events :: e.PushEvent? && e.index <= i < e.index + |e.data|
  }

  /** No push loses a byte. */
  ghost predicate AllKept(capacity: nat, events: seq<Event>)
  {
    forall k | 0 <= k < |events| :: events[k].PushEvent? ==>
      KeepsAll(Run(capacity, events[..k]).r, events[k].data, events[k].index)
  }

  lemma {:induction false} KeptIsPushed(capacity: nat, events: seq<Event>, i: nat)
    requires capacity < U64 && AllInWindow(capacity, events) && AllKept(capacity, events)
    ensures Holds(Run(capacity, events).r, i) <==> Pushed(events, i)
  {
    if events != [] {
      var before, last := events[..|events|-1], events[|events|-1];
      assert events == before + [last];
      assert forall k | 0 <= k < |before| :: before[k] == events[k] && before[..k] == events[..k];
      AllInWindowBefore(capacity, events);
      KeptIsPushed(capacity, before, i);
      RunHolds(capacity, before, i);
      assert Pushed(events, i) <==>
        Pushed(before, i) || (last.PushEvent? && last.index <= i < last.index + |last.data|);
      match last
      case PushEvent(data, index, eof) => PushHolds(Run(capacity, before).r, data, index, eof, i);
      case ReadEvent(len) =>
    }
  }

  /** So while every push is kept whole, what is written depends on the substrings and not on their order. */
  lemma RunOrderFree(capacity: nat, events: seq<Event>)
    requires capacity < U64 && AllInWindow(capacity, events) && AllKept(capacity, events)
    ensures var n := Run(capacity, events).r.output.written;
      (forall i: nat | i < n :: Pushed(events, i)) && !Pushed(events, n)
  {
    var r := Run(capacity, events).r;
    RunHolds(capacity, events, r.waitIndex);
    KeptIsPushed(capacity, events, r.waitIndex);
    forall i: nat | i < r.waitIndex ensures Pushed(events, i) {
      KeptIsPushed(capacity, events, i);
    }
  }
}
