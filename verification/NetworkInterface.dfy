/** The interface as an object: the maps, the waiting queue and the frame queue change in place. */
module NetworkInterfaces {
  import opened Wrappers
  import opened Wrapping
  import opened Datagrams
  import opened Interfaces

  /** What stays in the queue when the entries from `it` on are still to be met. */
  function LeftOver(w: seq<Waiting>, it: nat, hop: u32): seq<Waiting>
    requires it <= |w|
  {
    w[..it] + WithoutHop(w[it..], hop)
  }

  function StillToSend(i: Interface, dst: EthernetAddress, w: seq<Waiting>, it: nat, hop: u32): seq<Frame>
    requires it <= |w|
  {
    DataFrames(i, dst, WaitingFor(w[it..], hop))
  }

  lemma SendRound(i: Interface, dst: EthernetAddress, frames: seq<Frame>, w: seq<Waiting>, it: nat, hop: u32)
    requires it < |w|
    ensures if w[it].hop == hop then
        var w' := w[..it] + w[it + 1..];
        && LeftOver(w', it, hop) == LeftOver(w, it, hop)
        && frames + [DataFrame(i, dst, w[it].dgram)] + StillToSend(i, dst, w', it, hop)
        == frames + StillToSend(i, dst, w, it, hop)
      else
        && LeftOver(w, it + 1, hop) == LeftOver(w, it, hop)
        && StillToSend(i, dst, w, it + 1, hop) == StillToSend(i, dst, w, it, hop)
  {
    assert w[it..][1..] == w[it + 1..];
    var rest := WaitingFor(w[it + 1..], hop);
    if w[it].hop == hop {
      var w' := w[..it] + w[it + 1..];
      assert w'[..it] == w[..it] && w'[it..] == w[it + 1..];
      assert ([w[it].dgram] + rest)[1..] == rest;
      assert [] + WithoutHop(w[it + 1..], hop) == WithoutHop(w[it + 1..], hop);
    } else {
      assert [] + rest == rest;
      assert w[..it] + ([w[it]] + WithoutHop(w[it + 1..], hop)) == w[..it + 1] + WithoutHop(w[it + 1..], hop);
    }
  }

  class NetworkInterface {
    const ethernetAddress: EthernetAddress
    const ipAddress: u32
    var framesOut: seq<Frame>
    var currentTime: nat
    var addrCache: map<u32, Known>
    var addrRequestTime: map<u32, nat>
    var waitingDgrams: seq<Waiting>

    function State(): Interface
      reads this
    {
      Interface(ethernetAddress, ipAddress, framesOut, currentTime, addrCache, addrRequestTime, waitingDgrams)
    }

    constructor (eth: EthernetAddress, ip: u32)
      ensures State() == NewInterface(eth, ip)
    {
      ethernetAddress, ipAddress := eth, ip;
      framesOut, currentTime, addrCache, addrRequestTime, waitingDgrams := [], 0, map[], map[], [];
    }

    method SendDatagram(dgram: Datagram, nextHop: u32)
      modifies this
      ensures State() == Interfaces.SendDatagram(old(State()), dgram, nextHop)
    {
      if nextHop in addrCache {
        framesOut := framesOut + [Frame(ethernetAddress, addrCache[nextHop].eth, Ipv4(dgram))];
      } else {
        if nextHop !in addrRequestTime || currentTime - addrRequestTime[nextHop] > REQUEST_INTERVAL {
          var msg := ArpMessage(OPCODE_REQUEST, ethernetAddress, ipAddress, 0, nextHop);
          framesOut := framesOut + [Frame(ethernetAddress, BROADCAST, Arp(msg))];
          addrRequestTime := addrRequestTime[nextHop := currentTime];
        }
        waitingDgrams := waitingDgrams + [Waiting(nextHop, dgram)];
      }
    }

    /** One round of `TrySendWaiting`: the datagram at `it` is sent and erased, or skipped. */
    method SendOrSkip(it: nat, newIp: u32) returns (next: nat)
      requires newIp in addrCache && it < |waitingDgrams|
      modifies this`framesOut, this`waitingDgrams
      ensures var w := old(waitingDgrams)[it];
        if w.hop == newIp then
          && next == it && waitingDgrams == old(waitingDgrams)[..it] + old(waitingDgrams)[it + 1..]
          && framesOut == old(framesOut) + [DataFrame(old(State()), addrCache[newIp].eth, w.dgram)]
        else next == it + 1 && waitingDgrams == old(waitingDgrams) && framesOut == old(framesOut)
    {
      next := it;
      if waitingDgrams[it].hop == newIp {
        framesOut := framesOut + [Frame(ethernetAddress, addrCache[newIp].eth, Ipv4(waitingDgrams[it].dgram))];
        waitingDgrams := waitingDgrams[..it] + waitingDgrams[it + 1..];
      } else {
        next := it + 1;
      }
    }

    /** Sends and erases, in order, every waiting datagram for `newIp`. */
    method TrySendWaiting(newIp: u32)
      requires newIp in addrCache
      modifies this`framesOut, this`waitingDgrams
      ensures waitingDgrams == WithoutHop(old(waitingDgrams), newIp)
      ensures framesOut == old(framesOut) +
        DataFrames(old(State()), addrCache[newIp].eth, WaitingFor(old(waitingDgrams), newIp))
    {
      var it: nat := 0;
      ghost var i := State();
      ghost var eth := addrCache[newIp].eth;
      while it < |waitingDgrams|
        invariant it <= |waitingDgrams|
        invariant LeftOver(waitingDgrams, it, newIp) == WithoutHop(i.waiting, newIp)
        invariant framesOut + StillToSend(i, eth, waitingDgrams, it, newIp)
               == i.framesOut + DataFrames(i, eth, WaitingFor(i.waiting, newIp))
        decreases |waitingDgrams| - it
      {
        SendRound(i, eth, framesOut, waitingDgrams, it, newIp);
        it := SendOrSkip(it, newIp);
      }
      assert waitingDgrams[it..] == [] && waitingDgrams[..it] + [] == waitingDgrams;
      assert framesOut + [] == framesOut;
    }

    method TakeArp(msg: ArpMessage)
      modifies this
      ensures State() == Interfaces.TakeArp(old(State()), msg)
    {
      addrCache := addrCache[msg.senderIp := Known(msg.senderEth, currentTime)];
      if msg.senderIp in addrRequestTime {
        addrRequestTime := addrRequestTime - {msg.senderIp};
      }
      SameFrames(State(), old(State()), msg.senderEth, WaitingFor(waitingDgrams, msg.senderIp));
      TrySendWaiting(msg.senderIp);
      assert State() == Learn(old(State()), msg);
      if msg.opcode == OPCODE_REQUEST && msg.targetIp == ipAddress {
        var reply := ArpMessage(OPCODE_REPLY, ethernetAddress, ipAddress, msg.senderEth, msg.senderIp);
        framesOut := framesOut + [Frame(ethernetAddress, msg.senderEth, Arp(reply))];
      }
    }

    method RecvFrame(frame: Frame) returns (res: Option<Datagram>)
      modifies this
      ensures State() == Interfaces.RecvFrame(old(State()), frame)
      ensures res == Received(old(State()), frame)
    {
      res := None;
      if frame.dst == ethernetAddress || frame.dst == BROADCAST {
        match frame.payload
        case Ipv4(dgram) => res := Some(dgram);
        case Arp(msg) => TakeArp(msg);
        case Unreadable =>
      }
    }

    method RemoveExpiredCache()
      modifies this`addrCache
      ensures addrCache ==
        map ip | ip in old(addrCache) && currentTime - old(addrCache)[ip].since <= CACHE_LIFETIME :: old(addrCache)[ip]
    {
      var todo := addrCache.Keys;
      while todo != {}
        invariant todo <= addrCache.Keys <= old(addrCache).Keys
        invariant forall ip | ip in addrCache :: addrCache[ip] == old(addrCache)[ip]
        invariant forall ip | ip in old(addrCache) && ip !in todo ::
          ip in addrCache <==> currentTime - old(addrCache)[ip].since <= CACHE_LIFETIME
        decreases |todo|
      {
        var ip :| ip in todo;
        todo := todo - {ip};
        if currentTime - addrCache[ip].since > CACHE_LIFETIME {
          addrCache := addrCache - {ip};
        }
      }
    }

    method Tick(ms: nat)
      modifies this
      ensures State() == Interfaces.Tick(old(State()), ms)
    {
      currentTime := currentTime + ms;
      RemoveExpiredCache();
    }
  }

  lemma {:induction false} SameFrames(i: Interface, j: Interface, dst: EthernetAddress, dgrams: seq<Datagram>)
    requires i.eth == j.eth
    ensures DataFrames(i, dst, dgrams) == DataFrames(j, dst, dgrams)
  {
    if dgrams != [] {
      SameFrames(i, j, dst, dgrams[1..]);
    }
  }
}
