/**
 When a connection may become inactive without an error (section 3.5 of RFC 793).
 */
module CleanClose {
  import opened Wrapping
  import opened Segments
  import opened Reassembly
  import opened SendingProofs
  import opened Connections
  import opened Network
  import opened EndpointRuns

  /** Both streams are over: everything has been received, and SYN, every byte and FIN were sent and acknowledged. */
  ghost predicate Finished(e: Endpoint)
  {
    && e.conn.Inbound().ended && Unassembled(e.conn.receiver.reassembler.waiting) == 0
    && e.conn.Outbound().Eof() && e.conn.Outbound().read == |e.accepted|
    && e.conn.sender.synSent && e.conn.sender.finSent && e.conn.sender.outstanding == []
    && Unacked(e.conn.sender) == |e.accepted| + 2
  }

  /** The call makes an active connection inactive, and leaves no error behind. */
  ghost predicate ClosesCleanly(e: Endpoint, e': Endpoint)
  {
    e.conn.active && !e'.conn.active && !e'.conn.Outbound().error
  }

  /** The counters say that both streams are over exactly when they are. */
  lemma ShouldShutdownIff(e: Endpoint)
    requires SenderInv(e.conn.sender, e.accepted)
    ensures ShouldShutdown(e.conn) <==> Finished(e)
  {
    var s := e.conn.sender;
    ChainLength(s.outstanding, Unacked(s), s.nextSeqno, s.isn, Sent(s, e.accepted));
  }

  /** Only the passing of time closes cleanly, exactly for a finished connection that has lingered or need not. */
  lemma CloseStep(e: Endpoint, peerWire: set<Segment>, act: Action)
    requires SenderInv(e.conn.sender, e.accepted) && e.conn.active
    ensures ClosesCleanly(e, Act(e, peerWire, act)) ==> act.Ticking?
    ensures act.Ticking? ==> (ClosesCleanly(e, Act(e, peerWire, act)) <==>
      && e.conn.sender.retransmissions < MAX_RETX_ATTEMPTS && !e.conn.Outbound().error
      && Finished(e)
      && (e.conn.linger ==> e.conn.sinceLastSegment + act.ms >= 10 * e.conn.cfg.rtTimeout))
  {
    if act.Ticking? && e.conn.sender.retransmissions < MAX_RETX_ATTEMPTS {
      TickInv(e.conn.sender, act.ms, e.accepted);
      var c1 := e.conn.(sinceLastSegment := e.conn.sinceLastSegment + act.ms,
                        sender := Sending.Tick(e.conn.sender, act.ms));
      ShouldShutdownIff(e.(conn := c1));
    }
  }

  // ---------- Over a run ----------

  /** Milliseconds ticked since a segment last arrived. */
  function Quiet(acts: seq<Action>): nat {
    if acts == [] then 0 else
    match acts[|acts|-1]
    case Ticking(ms) => Quiet(acts[..|acts|-1]) + ms
    case Receiving(_) => 0
    case _ => Quiet(acts[..|acts|-1])
  }

  lemma SinceStep(e: Endpoint, act: Action)
    ensures Do(e, act).conn.sinceLastSegment ==
      match act
      case Ticking(ms) => e.conn.sinceLastSegment + ms
      case Receiving(_) => 0
      case _ => e.conn.sinceLastSegment
  {
  }

  lemma {:induction false} QuietIsSince(cfg: Config, acts: seq<Action>)
    ensures Alone(cfg, acts).conn.sinceLastSegment == Quiet(acts)
  {
    if acts != [] {
      QuietIsSince(cfg, acts[..|acts|-1]);
      SinceStep(Alone(cfg, acts[..|acts|-1]), acts[|acts|-1]);
    }
  }

  /** The peer's stream ended here while ours was still open. */
  ghost predicate PeerFirst(e: Endpoint) { e.conn.Inbound().ended && !e.conn.Outbound().ended }

  ghost predicate EverPeerFirst(cfg: Config, acts: seq<Action>)
  {
    exists k | 0 <= k <= |acts| :: PeerFirst(Alone(cfg, acts[..k]))
  }

  lemma LingerStep(e: Endpoint, act: Action)
    requires e.conn.linger && !Do(e, act).conn.linger
    ensures PeerFirst(Do(e, act))
  {
  }

  lemma {:induction false} LingerOff(cfg: Config, acts: seq<Action>)
    requires !Alone(cfg, acts).conn.linger
    ensures EverPeerFirst(cfg, acts)
  {
    if acts != [] {
      var before, last := acts[..|acts|-1], acts[|acts|-1];
      if !Alone(cfg, before).conn.linger {
        LingerOff(cfg, before);
        var k :| 0 <= k <= |before| && PeerFirst(Alone(cfg, before[..k]));
        assert before[..k] == acts[..k];
      } else {
        LingerStep(Alone(cfg, before), last);
        assert acts[..|acts|] == acts;
      }
    }
  }

  /**
   In every run, whatever segments arrive, the event at which a connection becomes inactive without an error is a tick
   that finds it finished, and either its peer's stream had ended before its own or no segment has come for ten times
   the timeout.
   */
  lemma ClosesOnlyWhenDone(cfg: Config, acts: seq<Action>)
    requires acts != [] && |Alone(cfg, acts).accepted| < U64 - HALF - 2
    requires ClosesCleanly(Alone(cfg, acts[..|acts|-1]), Alone(cfg, acts))
    ensures acts[|acts|-1].Ticking? && Finished(Alone(cfg, acts))
    ensures EverPeerFirst(cfg, acts) || Quiet(acts) >= 10 * Alone(cfg, acts).conn.cfg.rtTimeout
  {
    var before, last := acts[..|acts|-1], acts[|acts|-1];
    var e := Alone(cfg, before);
    RunOrderly(cfg, before);
    CloseStep(e, if last.Receiving? then {last.seg} else {}, last);
    QuietIsSince(cfg, acts);
    if !e.conn.linger {
      LingerOff(cfg, acts);
    }
  }
}
