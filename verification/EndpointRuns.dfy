/**
 One endpoint in a run, whatever its peer sends. The peer need not be one of these endpoints: any segment may arrive.
 */
module EndpointRuns {
  import opened Wrappers
  import opened Wrapping
  import opened Segments
  import opened Sending
  import opened SendingProofs
  import opened Receiving
  import opened Connections
  import opened ConnectionProofs
  import opened Network

  function At(n: Net, atA: bool): Endpoint { if atA then n.a else n.b }

  function ConfigAt(cfgA: Config, cfgB: Config, atA: bool): Config { if atA then cfgA else cfgB }

  function ActionAt(ev: Event, atA: bool): Option<Action> {
    if ev.AtA? == atA then Some(ev.act) else None
  }

  lemma StepAt(n: Net, ev: Event, atA: bool) returns (e': Endpoint)
    ensures e' == At(Step(n, ev), atA)
    ensures e' == match ActionAt(ev, atA)
                  case Some(act) => Act(At(n, atA), At(n, !atA).wire, act)
                  case None => At(n, atA)
  {
    e' := At(Step(n, ev), atA);
  }

  /** The sender's bookkeeping, and at most eight retries. */
  ghost predicate Orderly(e: Endpoint)
  {
    SenderInv(e.conn.sender, e.accepted) && e.conn.sender.retransmissions <= MAX_RETX_ATTEMPTS
  }

  lemma Connected(e: Endpoint)
    requires Orderly(e)
    ensures Orderly(e.(conn := Connect(e.conn)))
  {
    var s := FillWindow(e.conn.sender);
    FillWindowProceeds(e.conn.sender, e.accepted, 0);
    SameBooks(s, s.(segmentsOut := []), e.accepted);
  }

  lemma Ticked(e: Endpoint, ms: nat)
    requires Orderly(e)
    ensures Orderly(e.(conn := Connections.Tick(e.conn, ms)))
  {
    var s, s' := e.conn.sender, Connections.Tick(e.conn, ms).sender;
    if s.retransmissions >= MAX_RETX_ATTEMPTS {
      SendEmptyInv(s, true, e.accepted);
      SameBooks(SendEmpty(s, false, false, true), s', e.accepted);
    } else {
      TickProceeds(s, ms, e.accepted);
      SameBooks(Sending.Tick(s, ms), s', e.accepted);
    }
  }

  lemma ReceivedAny(e: Endpoint, seg: Segment)
    requires Orderly(e) && |e.accepted| < U64 - HALF - 2
    ensures Orderly(e.(conn := SegmentReceived(e.conn, seg)))
  {
    var s, s' := e.conn.sender, SegmentReceived(e.conn, seg).sender;
    if seg.header.rst {
      SameBooks(s, s', e.accepted);
    } else {
      var rc := Receive(e.conn.receiver, seg);
      ReactInv(s, rc, seg, e.accepted);
      SameBooks(ReactTo(s, rc, seg), s', e.accepted);
    }
  }

  lemma ActOrderly(e: Endpoint, peerWire: set<Segment>, act: Action)
    requires Orderly(e) && |e.accepted| < U64 - HALF - 2
    ensures Orderly(Act(e, peerWire, act))
  {
    var s := e.conn.sender;
    match act
    case Connecting => Connected(e);
    case Writing(data) =>
      WriteInv(s, data, e.accepted);
      Connected(e.(conn := e.conn.(sender := s.(stream := s.stream.Write(data))),
                   accepted := e.accepted + data[..s.stream.Accepted(data)]));
    case Ending =>
      EndInputInv(s, e.accepted);
      Connected(e.(conn := e.conn.(sender := s.(stream := s.stream.EndInput()))));
    case Reading(len) =>
    case Ticking(ms) => Ticked(e, ms);
    case Transmitting =>
    case Receiving(seg) =>
      if seg in peerWire {
        ReceivedAny(e, seg);
      }
  }

  // ---------- Against any peer ----------

  /** One call at an endpoint. Whatever segment is received, anyone may have sent it. */
  function Do(e: Endpoint, act: Action): Endpoint { Act(e, if act.Receiving? then {act.seg} else {}, act) }

  /** An endpoint that may receive any segment at any time. */
  function Alone(cfg: Config, acts: seq<Action>): Endpoint {
    if acts == [] then Opened(cfg) else Do(Alone(cfg, acts[..|acts|-1]), acts[|acts|-1])
  }

  /** In every run in which the counters do not overflow, whatever the peer sends. */
  lemma {:induction false} RunOrderly(cfg: Config, acts: seq<Action>)
    requires |Alone(cfg, acts).accepted| < U64 - HALF - 2
    ensures Orderly(Alone(cfg, acts))
  {
    if acts == [] {
      NewSenderInv(cfg.sendCapacity, cfg.rtTimeout, cfg.isn);
    } else {
      var before, act := acts[..|acts|-1], acts[|acts|-1];
      RunOrderly(cfg, before);
      ActOrderly(Alone(cfg, before), if act.Receiving? then {act.seg} else {}, act);
    }
  }

  /** The timeout is the initial one doubled once per retry, at most eight times, without wrapping. */
  lemma TimeoutNeverWraps(cfg: Config, acts: seq<Action>)
    requires |Alone(cfg, acts).accepted| < U64 - HALF - 2
    ensures var s := Alone(cfg, acts).conn.sender;
      s.retransmissions <= MAX_RETX_ATTEMPTS && s.rto == s.initialRto * Pow2(s.retransmissions)
  {
    RunOrderly(cfg, acts);
    var s := Alone(cfg, acts).conn.sender;
    BackedOffExact(s.initialRto, s.retransmissions);
  }

  /** What an event of two endpoints is to one of them: a call, or nothing. */
  function SeenAt(n: Net, ev: Event, atA: bool): seq<Action> {
    match ActionAt(ev, atA)
    case None => []
    case Some(act) => if act.Receiving? && act.seg !in At(n, !atA).wire then [] else [act]
  }

  /** Each endpoint of a network is one of these, so what holds against any peer holds there. */
  lemma {:induction false} RunIsAlone(cfgA: Config, cfgB: Config, events: seq<Event>, atA: bool)
    returns (acts: seq<Action>)
    ensures At(Run(cfgA, cfgB, events), atA) == Alone(ConfigAt(cfgA, cfgB, atA), acts)
  {
    acts := [];
    if events != [] {
      var before, ev := events[..|events|-1], events[|events|-1];
      acts := RunIsAlone(cfgA, cfgB, before, atA);
      var n := Run(cfgA, cfgB, before);
      var e' := StepAt(n, ev, atA);
      if SeenAt(n, ev, atA) != [] {
        assert (acts + [ev.act])[..|acts|] == acts;
        acts := acts + [ev.act];
      }
    }
  }
}
