/**
 Whole runs of an interface, with a log of everything handed to it, learned, asked and sent.
 */
module InterfaceRuns {
  import opened Wrappers
  import opened Wrapping
  import opened Datagrams
  import opened Interfaces

  datatype Event = Sending(dgram: Datagram, hop: u32) | Receiving(frame: Frame) | Ticking(ms: nat)

  datatype Entry =
    | Handed(hop: u32, dgram: Datagram)
    | Asked(hop: u32, time: nat)
    | Learned(hop: u32, eth: EthernetAddress, time: nat)
    | Sent(hop: u32, dgram: Datagram, eth: EthernetAddress, time: nat)
    | Replied(msg: ArpMessage)

  datatype Tracked = Tracked(i: Interface, log: seq<Entry>)

  function SentAll(hop: u32, dgrams: seq<Datagram>, eth: EthernetAddress, time: nat): seq<Entry> {
    if dgrams == [] then [] else [Sent(hop, dgrams[0], eth, time)] + SentAll(hop, dgrams[1..], eth, time)
  }

  function LogOfArp(i: Interface, msg: ArpMessage): seq<Entry> {
    var log := [Learned(msg.senderIp, msg.senderEth, i.now)] +
               SentAll(msg.senderIp, WaitingFor(i.waiting, msg.senderIp), msg.senderEth, i.now);
    if MustReply(i, msg) then log + [Replied(msg)] else log
  }

  function LogOf(i: Interface, e: Event): seq<Entry> {
    match e
    case Sending(dgram, hop) =>
      [Handed(hop, dgram)] +
      (if hop in i.cache then [Sent(hop, dgram, i.cache[hop].eth, i.now)]
       else if MustAsk(i, hop) then [Asked(hop, i.now)] else [])
    case Receiving(frame) =>
      if IsFor(i, frame) && frame.payload.Arp? then LogOfArp(i, frame.payload.msg) else []
    case Ticking(_) => []
  }

  function After(i: Interface, e: Event): Interface {
    match e
    case Sending(dgram, hop) => SendDatagram(i, dgram, hop)
    case Receiving(frame) => RecvFrame(i, frame)
    case Ticking(ms) => Tick(i, ms)
  }

  function Run(eth: EthernetAddress, ip: u32, events: seq<Event>): Tracked {
    if events == [] then Tracked(NewInterface(eth, ip), [])
    else
      var t := Run(eth, ip, events[..|events|-1]);
      var e := events[|events|-1];
      Tracked(After(t.i, e), t.log + LogOf(t.i, e))
  }

  // ---------- The log is what really went out ----------

  function FrameOf(i: Interface, x: Entry): seq<Frame> {
    match x
    case Handed(_, _) => []
    case Asked(hop, _) => [RequestFrame(i, hop)]
    case Learned(_, _, _) => []
    case Sent(_, dgram, eth, _) => [DataFrame(i, eth, dgram)]
    case Replied(msg) => [ReplyFrame(i, msg)]
  }

  function FramesOf(i: Interface, log: seq<Entry>): seq<Frame> {
    if log == [] then [] else FramesOf(i, log[..|log|-1]) + FrameOf(i, log[|log|-1])
  }

  lemma {:induction false} FramesOfConcat(i: Interface, a: seq<Entry>, b: seq<Entry>)
    ensures FramesOf(i, a + b) == FramesOf(i, a) + FramesOf(i, b)
  {
    if b == [] {
      assert a + b == a;
    } else {
      var front, last := b[..|b|-1], b[|b|-1];
      assert (a + b)[..|a + b|-1] == a + front && (a + b)[|a + b|-1] == last;
      FramesOfConcat(i, a, front);
      assert FramesOf(i, a + b) == FramesOf(i, a + front) + FrameOf(i, last);
    }
  }

  lemma {:induction false} FramesOfSame(i: Interface, j: Interface, log: seq<Entry>)
    requires i.eth == j.eth && i.ip == j.ip
    ensures FramesOf(i, log) == FramesOf(j, log)
  {
    if log != [] {
      FramesOfSame(i, j, log[..|log|-1]);
    }
  }

  lemma {:induction false} FramesOfSentAll(i: Interface, hop: u32, dgrams: seq<Datagram>,
                                           eth: EthernetAddress, time: nat)
    ensures FramesOf(i, SentAll(hop, dgrams, eth, time)) == DataFrames(i, eth, dgrams)
  {
    if dgrams != [] {
      FramesOfSentAll(i, hop, dgrams[1..], eth, time);
      FramesOfConcat(i, [Sent(hop, dgrams[0], eth, time)], SentAll(hop, dgrams[1..], eth, time));
    }
  }

  lemma FramesOfOne(i: Interface, x: Entry)
    ensures FramesOf(i, [x]) == FrameOf(i, x)
  {
    assert [x][..0] == [];
    assert FramesOf(i, [x]) == [] + FrameOf(i, x);
  }

  lemma FramesOfSending(i: Interface, dgram: Datagram, hop: u32)
    ensures SendDatagram(i, dgram, hop).framesOut == i.framesOut + FramesOf(i, LogOf(i, Sending(dgram, hop)))
  {
    var log := LogOf(i, Sending(dgram, hop));
    FramesOfConcat(i, [Handed(hop, dgram)], log[1..]);
    FramesOfOne(i, Handed(hop, dgram));
    assert log == [Handed(hop, dgram)] + log[1..];
    if |log| == 2 {
      assert log[1..] == [log[1]];
      FramesOfOne(i, log[1]);
    } else {
      assert log[1..] == [];
    }
  }

  lemma FramesOfArp(i: Interface, msg: ArpMessage)
    ensures TakeArp(i, msg).framesOut == i.framesOut + FramesOf(i, LogOfArp(i, msg))
  {
    var learned := Learned(msg.senderIp, msg.senderEth, i.now);
    var sent := SentAll(msg.senderIp, WaitingFor(i.waiting, msg.senderIp), msg.senderEth, i.now);
    FramesOfConcat(i, [learned], sent);
    FramesOfOne(i, learned);
    FramesOfSentAll(i, msg.senderIp, WaitingFor(i.waiting, msg.senderIp), msg.senderEth, i.now);
    if MustReply(i, msg) {
      FramesOfConcat(i, [learned] + sent, [Replied(msg)]);
      FramesOfOne(i, Replied(msg));
    }
  }

  lemma FramesOfStep(i: Interface, e: Event)
    ensures After(i, e).framesOut == i.framesOut + FramesOf(i, LogOf(i, e))
    ensures After(i, e).eth == i.eth && After(i, e).ip == i.ip
  {
    match e
    case Sending(dgram, hop) => FramesOfSending(i, dgram, hop);
    case Receiving(frame) =>
      if IsFor(i, frame) && frame.payload.Arp? {
        FramesOfArp(i, frame.payload.msg);
      }
    case Ticking(_) =>
  }

  /** The frames queued for sending are exactly those of the log, in order. */
  lemma {:induction false} RunFrames(eth: EthernetAddress, ip: u32, events: seq<Event>)
    ensures var t := Run(eth, ip, events);
      t.i.framesOut == FramesOf(t.i, t.log) && t.i.eth == eth && t.i.ip == ip
  {
    if events != [] {
      var before, e := events[..|events|-1], events[|events|-1];
      RunFrames(eth, ip, before);
      var t := Run(eth, ip, before);
      FramesOfStep(t.i, e);
      FramesOfConcat(t.i, t.log, LogOf(t.i, e));
      FramesOfSame(t.i, After(t.i, e), t.log + LogOf(t.i, e));
    }
  }

  // ---------- Conservation and order ----------

  function HandedTo(log: seq<Entry>, hop: u32): seq<Datagram> {
    if log == [] then [] else
    var x := log[|log|-1];
    HandedTo(log[..|log|-1], hop) + if x.Handed? && x.hop == hop then [x.dgram] else []
  }

  function SentTo(log: seq<Entry>, hop: u32): seq<Datagram> {
    if log == [] then [] else
    var x := log[|log|-1];
    SentTo(log[..|log|-1], hop) + if x.Sent? && x.hop == hop then [x.dgram] else []
  }

  lemma {:induction false} LogConcat(a: seq<Entry>, b: seq<Entry>, hop: u32)
    ensures HandedTo(a + b, hop) == HandedTo(a, hop) + HandedTo(b, hop)
    ensures SentTo(a + b, hop) == SentTo(a, hop) + SentTo(b, hop)
  {
    if b == [] {
      assert a + b == a;
    } else {
      assert (a + b)[..|a + b|-1] == a + b[..|b|-1];
      LogConcat(a, b[..|b|-1], hop);
    }
  }

  lemma {:induction false} SentAllTo(hop: u32, dgrams: seq<Datagram>, eth: EthernetAddress, time: nat, h: u32)
    ensures var log := SentAll(hop, dgrams, eth, time);
      HandedTo(log, h) == [] && SentTo(log, h) == if h == hop then dgrams else []
  {
    if dgrams != [] {
      SentAllTo(hop, dgrams[1..], eth, time, h);
      LogConcat([Sent(hop, dgrams[0], eth, time)], SentAll(hop, dgrams[1..], eth, time), h);
    }
  }

  lemma {:induction false} WithoutHopWaiting(w: seq<Waiting>, hop: u32, h: u32)
    ensures WaitingFor(WithoutHop(w, hop), h) == if h == hop then [] else WaitingFor(w, h)
  {
    if w != [] {
      WithoutHopWaiting(w[1..], hop, h);
      var rest := WithoutHop(w[1..], hop);
      if w[0].hop != hop {
        assert ([w[0]] + rest)[1..] == rest;
      } else {
        assert [] + rest == rest;
      }
    }
  }

  lemma {:induction false} WaitingForAppend(w: seq<Waiting>, x: Waiting, h: u32)
    ensures WaitingFor(w + [x], h) == WaitingFor(w, h) + if x.hop == h then [x.dgram] else []
  {
    if w == [] {
      assert w + [x] == [x];
    } else {
      assert (w + [x])[1..] == w[1..] + [x] && (w + [x])[0] == w[0];
      WaitingForAppend(w[1..], x, h);
      Reassociate(if w[0].hop == h then [w[0].dgram] else [], WaitingFor(w[1..], h),
                  if x.hop == h then [x.dgram] else []);
    }
  }

  lemma OneTo(x: Entry, h: u32)
    ensures HandedTo([x], h) == if x.Handed? && x.hop == h then [x.dgram] else []
    ensures SentTo([x], h) == if x.Sent? && x.hop == h then [x.dgram] else []
  {
    assert [x][..0] == [];
  }

  /** For each hop: what was handed over is what was sent, then what waits, in order. */
  ghost predicate Conserved(i: Interface, log: seq<Entry>, h: u32)
  {
    HandedTo(log, h) == SentTo(log, h) + WaitingFor(i.waiting, h)
  }

  lemma LogOfSendingTo(i: Interface, dgram: Datagram, hop: u32, h: u32)
    ensures var more := LogOf(i, Sending(dgram, hop));
      && HandedTo(more, h) == (if h == hop then [dgram] else [])
      && SentTo(more, h) == (if h == hop && hop in i.cache then [dgram] else [])
  {
    var more := LogOf(i, Sending(dgram, hop));
    LogConcat([Handed(hop, dgram)], more[1..], h);
    OneTo(Handed(hop, dgram), h);
    assert more == [Handed(hop, dgram)] + more[1..];
    if |more| == 2 {
      assert more[1..] == [more[1]];
      OneTo(more[1], h);
    } else {
      assert more[1..] == [];
    }
  }

  /** Sequences of the shape that conservation takes. */
  lemma Reassociate<T>(a: seq<T>, b: seq<T>, c: seq<T>)
    ensures (a + b) + c == a + (b + c)
  {
  }

  /** Datagrams handed over either join the end of the queue or, if none is waiting, go out. */
  lemma Balance(i: Interface, log: seq<Entry>, i': Interface, more: seq<Entry>, h: u32, d: seq<Datagram>)
    requires Conserved(i, log, h) && HandedTo(more, h) == d
    requires || (SentTo(more, h) == [] && WaitingFor(i'.waiting, h) == WaitingFor(i.waiting, h) + d)
             || (SentTo(more, h) == d && WaitingFor(i'.waiting, h) == WaitingFor(i.waiting, h) == [])
    ensures Conserved(i', log + more, h)
  {
    LogConcat(log, more, h);
    Reassociate(SentTo(log, h), WaitingFor(i.waiting, h), d);
  }

  lemma ConservedSending(i: Interface, log: seq<Entry>, dgram: Datagram, hop: u32, h: u32)
    requires Conserved(i, log, h) && (hop in i.cache ==> WaitingFor(i.waiting, hop) == [])
    ensures Conserved(SendDatagram(i, dgram, hop), log + LogOf(i, Sending(dgram, hop)), h)
  {
    var i' := SendDatagram(i, dgram, hop);
    LogOfSendingTo(i, dgram, hop, h);
    if hop in i.cache {
      assert i'.waiting == i.waiting;
      assert WaitingFor(i.waiting, h) + [] == WaitingFor(i.waiting, h);
    } else {
      assert i'.waiting == i.waiting + [Waiting(hop, dgram)];
      WaitingForAppend(i.waiting, Waiting(hop, dgram), h);
    }
    Balance(i, log, i', LogOf(i, Sending(dgram, hop)), h, if h == hop then [dgram] else []);
  }

  lemma LogOfArpTo(i: Interface, msg: ArpMessage, h: u32)
    ensures HandedTo(LogOfArp(i, msg), h) == []
    ensures SentTo(LogOfArp(i, msg), h) == if h == msg.senderIp then WaitingFor(i.waiting, h) else []
  {
    var learned := Learned(msg.senderIp, msg.senderEth, i.now);
    var sent := SentAll(msg.senderIp, WaitingFor(i.waiting, msg.senderIp), msg.senderEth, i.now);
    LogConcat([learned], sent, h);
    OneTo(learned, h);
    SentAllTo(msg.senderIp, WaitingFor(i.waiting, msg.senderIp), msg.senderEth, i.now, h);
    if MustReply(i, msg) {
      LogConcat([learned] + sent, [Replied(msg)], h);
      OneTo(Replied(msg), h);
    }
  }

  lemma ConservedArp(i: Interface, log: seq<Entry>, msg: ArpMessage, h: u32)
    requires Conserved(i, log, h)
    ensures Conserved(TakeArp(i, msg), log + LogOfArp(i, msg), h)
  {
    LogConcat(log, LogOfArp(i, msg), h);
    LogOfArpTo(i, msg, h);
    WithoutHopWaiting(i.waiting, msg.senderIp, h);
    assert TakeArp(i, msg).waiting == WithoutHop(i.waiting, msg.senderIp);
    assert HandedTo(log, h) + [] == HandedTo(log, h) && SentTo(log, h) + [] == SentTo(log, h);
  }

  // ---------- The maps ----------

  ghost predicate IsWaiting(i: Interface, hop: u32) { WaitingFor(i.waiting, hop) != [] }

  /** Requests are outstanding for exactly the hops with waiting datagrams, and none of those is known. */
  ghost predicate MapsInv(i: Interface)
  {
    && (forall hop :: hop in i.requested <==> IsWaiting(i, hop))
    && (forall hop | hop in i.requested :: hop !in i.cache)
  }

  lemma MapsStep(i: Interface, e: Event)
    requires MapsInv(i)
    ensures MapsInv(After(i, e))
  {
    var i' := After(i, e);
    match e
    case Sending(dgram, hop) =>
      forall h: u32 ensures h in i'.requested <==> IsWaiting(i', h) {
        assert h in i.requested <==> IsWaiting(i, h);
        WaitingForAppend(i.waiting, Waiting(hop, dgram), h);
      }
    case Receiving(frame) =>
      if IsFor(i, frame) && frame.payload.Arp? {
        forall h: u32 ensures h in i'.requested <==> IsWaiting(i', h) {
          assert h in i.requested <==> IsWaiting(i, h);
          WithoutHopWaiting(i.waiting, frame.payload.msg.senderIp, h);
        }
      }
    case Ticking(_) =>
      forall h: u32 ensures h in i'.requested <==> IsWaiting(i', h) {
        assert h in i.requested <==> IsWaiting(i, h);
      }
  }

  lemma ConservedStep(i: Interface, log: seq<Entry>, e: Event, hop: u32)
    requires Conserved(i, log, hop) && MapsInv(i)
    ensures Conserved(After(i, e), log + LogOf(i, e), hop)
  {
    match e
    case Sending(dgram, h) =>
      assert h in i.requested <==> IsWaiting(i, h);
      ConservedSending(i, log, dgram, h, hop);
    case Receiving(frame) =>
      if IsFor(i, frame) && frame.payload.Arp? {
        ConservedArp(i, log, frame.payload.msg, hop);
      } else {
        assert log + [] == log;
      }
    case Ticking(_) => assert log + [] == log;
  }

  /** The datagrams that `SendDatagram` was called with for one hop. */
  function Calls(events: seq<Event>, hop: u32): seq<Datagram> {
    if events == [] then [] else
    var e := events[|events|-1];
    Calls(events[..|events|-1], hop) + if e.Sending? && e.hop == hop then [e.dgram] else []
  }

  lemma LogOfCalls(i: Interface, e: Event, hop: u32)
    ensures HandedTo(LogOf(i, e), hop) == if e.Sending? && e.hop == hop then [e.dgram] else []
  {
    match e
    case Sending(dgram, h) => LogOfSendingTo(i, dgram, h, hop);
    case Receiving(frame) =>
      if IsFor(i, frame) && frame.payload.Arp? {
        LogOfArpTo(i, frame.payload.msg, hop);
      }
    case Ticking(_) =>
  }

  /** The log misses no call. */
  lemma {:induction false} RunHanded(eth: EthernetAddress, ip: u32, events: seq<Event>, hop: u32)
    ensures HandedTo(Run(eth, ip, events).log, hop) == Calls(events, hop)
  {
    if events != [] {
      var before, e := events[..|events|-1], events[|events|-1];
      RunHanded(eth, ip, before, hop);
      var t := Run(eth, ip, before);
      LogConcat(t.log, LogOf(t.i, e), hop);
      LogOfCalls(t.i, e, hop);
    }
  }

  /** Conservation and order, and the state of the two maps, over every run. */
  lemma {:induction false} RunConserves(eth: EthernetAddress, ip: u32, events: seq<Event>, hop: u32)
    ensures var t := Run(eth, ip, events);
      Conserved(t.i, t.log, hop) && MapsInv(t.i) && HandedTo(t.log, hop) == Calls(events, hop)
  {
    RunHanded(eth, ip, events, hop);
    if events != [] {
      var before, e := events[..|events|-1], events[|events|-1];
      RunConserves(eth, ip, before, hop);
      var t := Run(eth, ip, before);
      MapsStep(t.i, e);
      ConservedStep(t.i, t.log, e, hop);
    }
  }

  // ---------- What is learned is what arrived ----------

  function Clock(events: seq<Event>): nat {
    if events == [] then 0 else
    var e := events[|events|-1];
    Clock(events[..|events|-1]) + if e.Ticking? then e.ms else 0
  }

  /** The sender addresses in the ARP messages for this interface, in order of arrival, and when they came. */
  function Lessons(eth: EthernetAddress, events: seq<Event>): seq<Entry> {
    if events == [] then [] else
    var before, e := events[..|events|-1], events[|events|-1];
    Lessons(eth, before) +
    if e.Receiving? && (e.frame.dst == eth || e.frame.dst == BROADCAST) && e.frame.payload.Arp?
    then [Learned(e.frame.payload.msg.senderIp, e.frame.payload.msg.senderEth, Clock(before))] else []
  }

  function LearnedIn(log: seq<Entry>): seq<Entry> {
    if log == [] then [] else
    var x := log[|log|-1];
    LearnedIn(log[..|log|-1]) + if x.Learned? then [x] else []
  }

  lemma {:induction false} LearnedConcat(a: seq<Entry>, b: seq<Entry>)
    ensures LearnedIn(a + b) == LearnedIn(a) + LearnedIn(b)
  {
    if b == [] {
      assert a + b == a;
    } else {
      assert (a + b)[..|a + b|-1] == a + b[..|b|-1];
      LearnedConcat(a, b[..|b|-1]);
    }
  }

  lemma LearnedOne(x: Entry)
    ensures LearnedIn([x]) == if x.Learned? then [x] else []
  {
    assert [x][..0] == [];
  }

  lemma {:induction false} LearnedSentAll(hop: u32, dgrams: seq<Datagram>, eth: EthernetAddress, time: nat)
    ensures LearnedIn(SentAll(hop, dgrams, eth, time)) == []
  {
    if dgrams != [] {
      LearnedSentAll(hop, dgrams[1..], eth, time);
      LearnedConcat([Sent(hop, dgrams[0], eth, time)], SentAll(hop, dgrams[1..], eth, time));
      LearnedOne(Sent(hop, dgrams[0], eth, time));
    }
  }

  lemma LearnedArp(i: Interface, msg: ArpMessage)
    ensures LearnedIn(LogOfArp(i, msg)) == [Learned(msg.senderIp, msg.senderEth, i.now)]
  {
    var first := Learned(msg.senderIp, msg.senderEth, i.now);
    var sent := SentAll(msg.senderIp, WaitingFor(i.waiting, msg.senderIp), msg.senderEth, i.now);
    LearnedConcat([first], sent);
    LearnedOne(first);
    LearnedSentAll(msg.senderIp, WaitingFor(i.waiting, msg.senderIp), msg.senderEth, i.now);
    LearnedConcat([first] + sent, [Replied(msg)]);
    LearnedOne(Replied(msg));
  }

  lemma LearnedSending(i: Interface, dgram: Datagram, hop: u32)
    ensures LearnedIn(LogOf(i, Sending(dgram, hop))) == []
  {
    var log := LogOf(i, Sending(dgram, hop));
    LearnedConcat([log[0]], log[1..]);
    LearnedOne(log[0]);
    assert log == [log[0]] + log[1..];
    if |log| == 2 {
      assert log[1..] == [log[1]];
      LearnedOne(log[1]);
    }
  }

  lemma LearnedStep(i: Interface, e: Event)
    ensures LearnedIn(LogOf(i, e)) ==
      if e.Receiving? && IsFor(i, e.frame) && e.frame.payload.Arp?
      then [Learned(e.frame.payload.msg.senderIp, e.frame.payload.msg.senderEth, i.now)] else []
  {
    match e
    case Sending(dgram, hop) => LearnedSending(i, dgram, hop);
    case Receiving(frame) =>
      if IsFor(i, frame) && frame.payload.Arp? {
        LearnedArp(i, frame.payload.msg);
      }
    case Ticking(_) =>
  }

  /** The log has learned exactly what the frames said, when they came. */
  lemma {:induction false} RunLearned(eth: EthernetAddress, ip: u32, events: seq<Event>)
    ensures var t := Run(eth, ip, events); LearnedIn(t.log) == Lessons(eth, events) && t.i.now == Clock(events)
  {
    if events != [] {
      var before, e := events[..|events|-1], events[|events|-1];
      RunLearned(eth, ip, before);
      RunFrames(eth, ip, before);
      var t := Run(eth, ip, before);
      LearnedConcat(t.log, LogOf(t.i, e));
      LearnedStep(t.i, e);
    }
  }

  // ---------- Throttling and freshness ----------

  /** When the hop was last asked for, unless it has been learned since. */
  function LastAsked(log: seq<Entry>, hop: u32): Option<nat> {
    if log == [] then None else
    var x := log[|log|-1];
    if x.Asked? && x.hop == hop then Some(x.time)
    else if x.Learned? && x.hop == hop then None
    else LastAsked(log[..|log|-1], hop)
  }

  /** What was last learned about the hop. */
  function LastLearned(log: seq<Entry>, hop: u32): Option<Known> {
    if log == [] then None else
    var x := log[|log|-1];
    if x.Learned? && x.hop == hop then Some(Known(x.eth, x.time)) else LastLearned(log[..|log|-1], hop)
  }

  /** The two maps remember what the log says. */
  ghost predicate Remembers(i: Interface, log: seq<Entry>)
  {
    && (forall hop :: LastAsked(log, hop) == if hop in i.requested then Some(i.requested[hop]) else None)
    && (forall hop | hop in i.cache ::
          && LastLearned(log, hop) == Some(i.cache[hop])
          && i.cache[hop].since <= i.now <= i.cache[hop].since + CACHE_LIFETIME)
  }

  /** An entry that is allowed after `log`: no request too soon, no frame to an old address. */
  ghost predicate Allowed(log: seq<Entry>, x: Entry)
  {
    match x
    case Asked(hop, time) => LastAsked(log, hop).Some? ==> time > LastAsked(log, hop).value + REQUEST_INTERVAL
    case Sent(hop, _, eth, time) =>
      && LastLearned(log, hop).Some? && LastLearned(log, hop).value.eth == eth
      && LastLearned(log, hop).value.since <= time <= LastLearned(log, hop).value.since + CACHE_LIFETIME
    case _ => true
  }

  ghost predicate AllAllowed(log: seq<Entry>)
  {
    forall k | 0 <= k < |log| :: Allowed(log[..k], log[k])
  }

  lemma AllowedAppend(log: seq<Entry>, x: Entry)
    requires AllAllowed(log) && Allowed(log, x)
    ensures AllAllowed(log + [x])
  {
    forall k | 0 <= k < |log + [x]| ensures Allowed((log + [x])[..k], (log + [x])[k]) {
      if k < |log| {
        assert (log + [x])[..k] == log[..k];
      } else {
        assert (log + [x])[..k] == log;
      }
    }
  }

  lemma LastAppend(log: seq<Entry>, x: Entry, hop: u32)
    ensures LastAsked(log + [x], hop) ==
      if x.Asked? && x.hop == hop then Some(x.time)
      else if x.Learned? && x.hop == hop then None
      else LastAsked(log, hop)
    ensures LastLearned(log + [x], hop) ==
      if x.Learned? && x.hop == hop then Some(Known(x.eth, x.time)) else LastLearned(log, hop)
  {
    assert (log + [x])[..|log + [x]|-1] == log;
  }

  lemma HandedAppend(i: Interface, log: seq<Entry>, hop: u32, dgram: Datagram)
    requires Remembers(i, log) && AllAllowed(log)
    ensures Remembers(i, log + [Handed(hop, dgram)]) && AllAllowed(log + [Handed(hop, dgram)])
  {
    AllowedAppend(log, Handed(hop, dgram));
    forall h: u32 {
      LastAppend(log, Handed(hop, dgram), h);
    }
  }

  lemma SendingAllowed(i: Interface, log: seq<Entry>, dgram: Datagram, hop: u32)
    requires Remembers(i, log) && AllAllowed(log)
    ensures var log' := log + LogOf(i, Sending(dgram, hop));
      Remembers(SendDatagram(i, dgram, hop), log') && AllAllowed(log')
  {
    HandedAppend(i, log, hop, dgram);
    var log1 := log + [Handed(hop, dgram)];
    var more := LogOf(i, Sending(dgram, hop));
    if |more| == 2 {
      var x := more[1];
      assert log + more == log1 + [x];
      AllowedAppend(log1, x);
      forall h: u32 {
        LastAppend(log1, x, h);
      }
    } else {
      assert log + more == log1;
    }
  }

  ghost predicate SameMemory(log: seq<Entry>, log': seq<Entry>)
  {
    forall h :: LastAsked(log', h) == LastAsked(log, h) && LastLearned(log', h) == LastLearned(log, h)
  }

  lemma SentMemory(log: seq<Entry>, x: Entry)
    requires !x.Asked? && !x.Learned?
    ensures SameMemory(log, log + [x])
  {
    forall h: u32 {
      LastAppend(log, x, h);
    }
  }

  lemma {:induction false} SentAllAllowed(log: seq<Entry>, hop: u32, dgrams: seq<Datagram>,
                                          eth: EthernetAddress, time: nat)
    requires AllAllowed(log) && LastLearned(log, hop) == Some(Known(eth, time))
    ensures var log' := log + SentAll(hop, dgrams, eth, time);
      AllAllowed(log') && SameMemory(log, log')
    decreases |dgrams|
  {
    if dgrams == [] {
      assert log + [] == log;
    } else {
      var x := Sent(hop, dgrams[0], eth, time);
      AllowedAppend(log, x);
      SentMemory(log, x);
      SentAllAllowed(log + [x], hop, dgrams[1..], eth, time);
      Reassociate(log, [x], SentAll(hop, dgrams[1..], eth, time));
    }
  }

  lemma ArpAllowed(i: Interface, log: seq<Entry>, msg: ArpMessage)
    requires Remembers(i, log) && AllAllowed(log)
    ensures var log' := log + LogOfArp(i, msg);
      Remembers(TakeArp(i, msg), log') && AllAllowed(log')
  {
    var learned := Learned(msg.senderIp, msg.senderEth, i.now);
    var dgrams := WaitingFor(i.waiting, msg.senderIp);
    var log1 := log + [learned];
    AllowedAppend(log, learned);
    forall h: u32 {
      LastAppend(log, learned, h);
    }
    var log2 := log1 + SentAll(msg.senderIp, dgrams, msg.senderEth, i.now);
    SentAllAllowed(log1, msg.senderIp, dgrams, msg.senderEth, i.now);
    assert Remembers(TakeArp(i, msg), log2);
    if MustReply(i, msg) {
      AllowedAppend(log2, Replied(msg));
      forall h: u32 {
        LastAppend(log2, Replied(msg), h);
      }
      assert log + LogOfArp(i, msg) == log2 + [Replied(msg)];
    } else {
      assert log + LogOfArp(i, msg) == log2;
    }
  }

  lemma {:induction false} RunAllowed(eth: EthernetAddress, ip: u32, events: seq<Event>)
    ensures var t := Run(eth, ip, events); Remembers(t.i, t.log) && AllAllowed(t.log)
  {
    if events != [] {
      var before, e := events[..|events|-1], events[|events|-1];
      RunAllowed(eth, ip, before);
      var t := Run(eth, ip, before);
      match e
      case Sending(dgram, hop) => SendingAllowed(t.i, t.log, dgram, hop);
      case Receiving(frame) =>
        if IsFor(t.i, frame) && frame.payload.Arp? {
          ArpAllowed(t.i, t.log, frame.payload.msg);
        } else {
          assert t.log + [] == t.log;
        }
      case Ticking(ms) => assert t.log + [] == t.log;
    }
  }

  /** Nothing about `hop` was asked or learned between the entries `j` and `k`. */
  ghost predicate Silent(log: seq<Entry>, hop: u32, j: nat, k: nat)
    requires j <= k <= |log|
  {
    forall m | j <= m < k :: !(log[m].Asked? && log[m].hop == hop) && !(log[m].Learned? && log[m].hop == hop)
  }

  lemma {:induction false} SilentKeeps(log: seq<Entry>, hop: u32, j: nat, k: nat)
    requires j <= k <= |log| && Silent(log, hop, j, k)
    ensures LastAsked(log[..k], hop) == LastAsked(log[..j], hop)
    decreases k - j
  {
    if j < k {
      SilentKeeps(log, hop, j, k - 1);
      assert log[..k][..k - 1] == log[..k - 1];
    }
  }

  lemma LogThrottled(log: seq<Entry>, hop: u32, j: nat, k: nat)
    requires AllAllowed(log) && j < k < |log| && Silent(log, hop, j + 1, k)
    requires log[j].Asked? && log[k].Asked? && log[j].hop == log[k].hop == hop
    ensures log[k].time > log[j].time + REQUEST_INTERVAL
  {
    SilentKeeps(log, hop, j + 1, k);
    LastAppend(log[..j], log[j], hop);
    assert log[..j + 1] == log[..j] + [log[j]];
    assert Allowed(log[..k], log[k]);
  }

  /** Two successive requests for a hop are more than five seconds apart, unless the hop was learned in between. */
  lemma Throttled(eth: EthernetAddress, ip: u32, events: seq<Event>, hop: u32, j: nat, k: nat)
    requires var log := Run(eth, ip, events).log;
      j < k < |log| && log[j].Asked? && log[k].Asked? && log[j].hop == log[k].hop == hop && Silent(log, hop, j + 1, k)
    ensures var log := Run(eth, ip, events).log; log[k].time > log[j].time + REQUEST_INTERVAL
  {
    RunAllowed(eth, ip, events);
    LogThrottled(Run(eth, ip, events).log, hop, j, k);
  }

  /** Every datagram goes to the address last learned for its hop, at most thirty seconds ago. */
  lemma Fresh(eth: EthernetAddress, ip: u32, events: seq<Event>, k: nat) returns (known: Known)
    requires k < |Run(eth, ip, events).log| && Run(eth, ip, events).log[k].Sent?
    ensures var log := Run(eth, ip, events).log;
      && LastLearned(log[..k], log[k].hop) == Some(known) && known.eth == log[k].eth
      && known.since <= log[k].time <= known.since + CACHE_LIFETIME
  {
    var log := Run(eth, ip, events).log;
    RunAllowed(eth, ip, events);
    assert Allowed(log[..k], log[k]);
    known := LastLearned(log[..k], log[k].hop).value;
  }

  /** While a datagram has to wait, its hop has been asked for within the last five seconds. */
  lemma AskedRecently(eth: EthernetAddress, ip: u32, events: seq<Event>, dgram: Datagram, hop: u32) returns (time: nat)
    requires hop !in Run(eth, ip, events).i.cache
    ensures var t' := Run(eth, ip, events + [Sending(dgram, hop)]);
      LastAsked(t'.log, hop) == Some(time) && t'.i.now <= time + REQUEST_INTERVAL
  {
    var events' := events + [Sending(dgram, hop)];
    assert events'[..|events'|-1] == events;
    RunAllowed(eth, ip, events');
    var i' := Run(eth, ip, events').i;
    assert i' == SendDatagram(Run(eth, ip, events).i, dgram, hop);
    time := i'.requested[hop];
  }
}
