/**
 A network interface: datagrams go out in Ethernet frames once the address of the next hop is known, and the address
 is found with ARP (RFC 826, "Packet Reception").
 */
module Interfaces {
  import opened Wrappers
  import opened Wrapping
  import opened Datagrams

  type EthernetAddress = x: int | 0 <= x < 0x1_0000_0000_0000

  const BROADCAST: EthernetAddress := 0xffff_ffff_ffff
  const OPCODE_REQUEST: u16 := 1
  const OPCODE_REPLY: u16 := 2
  const REQUEST_INTERVAL: nat := 5000
  const CACHE_LIFETIME: nat := 30000

  datatype ArpMessage = ArpMessage(opcode: u16, senderEth: EthernetAddress, senderIp: u32,
                                   targetEth: EthernetAddress, targetIp: u32)

  /** What a frame's type and bytes amount to; anything that does not parse is unreadable. */
  datatype Payload = Ipv4(dgram: Datagram) | Arp(msg: ArpMessage) | Unreadable

  datatype Frame = Frame(src: EthernetAddress, dst: EthernetAddress, payload: Payload)

  datatype Known = Known(eth: EthernetAddress, since: nat)

  datatype Waiting = Waiting(hop: u32, dgram: Datagram)

  datatype Interface = Interface(eth: EthernetAddress, ip: u32, framesOut: seq<Frame>, now: nat,
                                 cache: map<u32, Known>, requested: map<u32, nat>, waiting: seq<Waiting>)

  function NewInterface(eth: EthernetAddress, ip: u32): Interface {
    Interface(eth, ip, [], 0, map[], map[], [])
  }

  function DataFrame(i: Interface, dst: EthernetAddress, dgram: Datagram): Frame { Frame(i.eth, dst, Ipv4(dgram)) }

  function RequestFrame(i: Interface, hop: u32): Frame {
    Frame(i.eth, BROADCAST, Arp(ArpMessage(OPCODE_REQUEST, i.eth, i.ip, 0, hop)))
  }

  function ReplyFrame(i: Interface, msg: ArpMessage): Frame {
    Frame(i.eth, msg.senderEth, Arp(ArpMessage(OPCODE_REPLY, i.eth, i.ip, msg.senderEth, msg.senderIp)))
  }

  /** A request goes out if none did, or the last one did more than five seconds ago. */
  predicate MustAsk(i: Interface, hop: u32) {
    hop !in i.requested || i.now - i.requested[hop] > REQUEST_INTERVAL
  }

  function Ask(i: Interface, hop: u32): Interface {
    if MustAsk(i, hop)
    then i.(framesOut := i.framesOut + [RequestFrame(i, hop)], requested := i.requested[hop := i.now])
    else i
  }

  function SendDatagram(i: Interface, dgram: Datagram, hop: u32): Interface {
    if hop in i.cache then i.(framesOut := i.framesOut + [DataFrame(i, i.cache[hop].eth, dgram)])
    else
      var i1 := Ask(i, hop);
      i1.(waiting := i1.waiting + [Waiting(hop, dgram)])
  }

  function WaitingFor(w: seq<Waiting>, hop: u32): seq<Datagram> {
    if w == [] then []
    else (if w[0].hop == hop then [w[0].dgram] else []) + WaitingFor(w[1..], hop)
  }

  function WithoutHop(w: seq<Waiting>, hop: u32): seq<Waiting> {
    if w == [] then []
    else (if w[0].hop == hop then [] else [w[0]]) + WithoutHop(w[1..], hop)
  }

  function DataFrames(i: Interface, dst: EthernetAddress, dgrams: seq<Datagram>): seq<Frame> {
    if dgrams == [] then [] else [DataFrame(i, dst, dgrams[0])] + DataFrames(i, dst, dgrams[1..])
  }

  /** The sender of any ARP message is learned, and what was waiting for it goes out. */
  function Learn(i: Interface, msg: ArpMessage): Interface {
    i.(cache := i.cache[msg.senderIp := Known(msg.senderEth, i.now)],
       requested := i.requested - {msg.senderIp},
       framesOut := i.framesOut + DataFrames(i, msg.senderEth, WaitingFor(i.waiting, msg.senderIp)),
       waiting := WithoutHop(i.waiting, msg.senderIp))
  }

  predicate MustReply(i: Interface, msg: ArpMessage) {
    msg.opcode == OPCODE_REQUEST && msg.targetIp == i.ip
  }

  function TakeArp(i: Interface, msg: ArpMessage): Interface {
    var i1 := Learn(i, msg);
    if MustReply(i, msg) then i1.(framesOut := i1.framesOut + [ReplyFrame(i, msg)]) else i1
  }

  predicate IsFor(i: Interface, frame: Frame) { frame.dst == i.eth || frame.dst == BROADCAST }

  function RecvFrame(i: Interface, frame: Frame): Interface {
    if IsFor(i, frame) && frame.payload.Arp? then TakeArp(i, frame.payload.msg) else i
  }

  function Received(i: Interface, frame: Frame): Option<Datagram> {
    if IsFor(i, frame) && frame.payload.Ipv4? then Some(frame.payload.dgram) else None
  }

  function Tick(i: Interface, ms: nat): Interface {
    var now := i.now + ms;
    i.(now := now, cache := map ip | ip in i.cache && now - i.cache[ip].since <= CACHE_LIFETIME :: i.cache[ip])
  }
}
