/**
 Longest-prefix-match routing between interfaces.
 */
module Routing {
  import opened Wrappers
  import opened Wrapping
  import opened Datagrams
  import opened Interfaces

  datatype Rule = Rule(prefix: u32, length: nat, nextHop: Option<u32>, iface: nat)

  // ---------- Masks ----------

  /** Bitwise conjunction. */
  function And(a: nat, b: nat): nat
    decreases a
  {
    if a == 0 then 0 else 2 * And(a / 2, b / 2) + (if a % 2 == 1 && b % 2 == 1 then 1 else 0)
  }

  /** All ones shifted left in 32 bits; a shift by the full width is avoided. */
  function Mask(length: nat): u32
    requires length <= 32
  {
    if length != 0 then (0xffff_ffff * Pow2(32 - length)) % U32 else 0
  }

  predicate Matches(ip: u32, rule: Rule)
    requires rule.length <= 32
  {
    And(ip, Mask(rule.length)) == And(rule.prefix, Mask(rule.length))
  }

  /** Shift right. */
  function Shr(x: nat, k: nat): nat { if k == 0 then x else Shr(x / 2, k - 1) }

  /** Shift left. */
  function Shl(x: nat, k: nat): nat { if k == 0 then x else 2 * Shl(x, k - 1) }

  function Bit(x: nat, k: nat): nat { Shr(x, k) % 2 }

  lemma {:induction false} Pow2Positive(k: nat)
    ensures Pow2(k) > 0
  {
    if k > 0 {
      Pow2Positive(k - 1);
    }
  }

  lemma {:induction false} Pow2Add(m: nat, n: nat)
    ensures Pow2(m + n) == Pow2(m) * Pow2(n)
  {
    if m > 0 {
      Pow2Add(m - 1, n);
    }
  }

  lemma Pow2Is32()
    ensures Pow2(32) == U32
  {
    assert Pow2(8) == 256;
    Pow2Add(8, 8);
    Pow2Add(16, 16);
  }

  /** `n` ones followed by `k` zeros. */
  function Ones(n: nat, k: nat): nat {
    if k > 0 then 2 * Ones(n, k - 1) else if n > 0 then 2 * Ones(n - 1, 0) + 1 else 0
  }

  lemma {:induction false} OnesValue(n: nat, k: nat)
    ensures Ones(n, k) == Pow2(n + k) - Pow2(k)
    decreases n, k
  {
    if k > 0 {
      OnesValue(n, k - 1);
    } else if n > 0 {
      OnesValue(n - 1, 0);
    }
  }

  lemma ShiftedMinus(t: nat)
    requires 0 < t <= U32
    ensures (0xffff_ffff * t) % U32 == U32 - t
  {
    assert 0xffff_ffff * t == U32 * (t - 1) + (U32 - t);
  }

  lemma MaskIsOnes(length: nat)
    requires length <= 32
    ensures Mask(length) == Ones(length, 32 - length)
  {
    Pow2Is32();
    OnesValue(length, 32 - length);
    Pow2Positive(32 - length);
    Pow2Monotone(32 - length, 32);
    if length > 0 {
      ShiftedMinus(Pow2(32 - length));
    }
  }

  lemma {:induction false} AndAllOnes(x: nat, n: nat)
    requires x < Pow2(n)
    ensures And(x, Ones(n, 0)) == x
  {
    if x > 0 {
      AndAllOnes(x / 2, n - 1);
    }
  }

  /** Keeping the bits from `k` up is cutting off the low `k` bits. */
  lemma {:induction false} AndOnes(x: nat, n: nat, k: nat)
    requires x < Pow2(n + k)
    ensures And(x, Ones(n, k)) == Shl(Shr(x, k), k)
    decreases k
  {
    if k == 0 {
      AndAllOnes(x, n);
    } else {
      AndOnes(x / 2, n, k - 1);
      assert x == 0 ==> And(x / 2, Ones(n, k - 1)) == 0;
    }
  }

  lemma {:induction false} ShlInjective(a: nat, b: nat, k: nat)
    ensures Shl(a, k) == Shl(b, k) <==> a == b
  {
    if k > 0 {
      ShlInjective(a, b, k - 1);
    }
  }

  lemma {:induction false} ShrNext(x: nat, k: nat)
    ensures Shr(x, k + 1) == Shr(x, k) / 2
  {
    if k > 0 {
      ShrNext(x / 2, k - 1);
    }
  }

  lemma {:induction false} ShrAll(x: nat, n: nat)
    requires x < Pow2(n)
    ensures Shr(x, n) == 0
  {
    if n > 0 {
      ShrAll(x / 2, n - 1);
    }
  }

  ghost predicate SameBits(a: nat, b: nat, lo: nat, hi: nat)
  {
    forall k | lo <= k < hi :: Bit(a, k) == Bit(b, k)
  }

  lemma {:induction false} ShrIffSameBits(a: nat, b: nat, k: nat)
    requires k <= 32 && a < U32 && b < U32
    ensures Shr(a, k) == Shr(b, k) <==> SameBits(a, b, k, 32)
    decreases 32 - k
  {
    Pow2Is32();
    if k == 32 {
      ShrAll(a, 32);
      ShrAll(b, 32);
    } else {
      ShrIffSameBits(a, b, k + 1);
      ShrNext(a, k);
      ShrNext(b, k);
      assert SameBits(a, b, k, 32) <==> SameBits(a, b, k + 1, 32) && Bit(a, k) == Bit(b, k);
    }
  }

  /** The mask test is agreement on the top `length` bits, for every length from 0 to 32. */
  lemma MatchesIffTopBits(ip: u32, rule: Rule)
    requires rule.length <= 32
    ensures Matches(ip, rule) <==> SameBits(ip, rule.prefix, 32 - rule.length, 32)
  {
    var k := 32 - rule.length;
    Pow2Is32();
    MaskIsOnes(rule.length);
    AndOnes(ip, rule.length, k);
    AndOnes(rule.prefix, rule.length, k);
    ShlInjective(Shr(ip, k), Shr(rule.prefix, k), k);
    ShrIffSameBits(ip, rule.prefix, k);
  }

  // ---------- Picking a rule ----------

  ghost predicate Valid(rules: seq<Rule>, interfaces: nat)
  {
    forall r | r in rules :: r.length <= 32 && r.iface < interfaces
  }

  /** The rule chosen among the first `n`: a later rule wins only with a longer prefix. */
  function Picked(rules: seq<Rule>, ip: u32, n: nat): (k: Option<nat>)
    requires n <= |rules| && forall r | r in rules :: r.length <= 32
    ensures k.Some? ==> k.value < n
  {
    if n == 0 then None else
    var k := Picked(rules, ip, n - 1);
    if Matches(ip, rules[n - 1]) && (k.None? || rules[k.value].length < rules[n - 1].length) then Some(n - 1) else k
  }

  /** Among the first `n` rules, `k` is the first of those with the longest matching prefix. */
  ghost predicate IsBest(rules: seq<Rule>, ip: u32, n: nat, k: Option<nat>)
    requires n <= |rules| && forall r | r in rules :: r.length <= 32
  {
    match k
    case None => forall j | 0 <= j < n :: !Matches(ip, rules[j])
    case Some(i) =>
      && i < n && Matches(ip, rules[i])
      && (forall j | 0 <= j < n :: Matches(ip, rules[j]) ==> rules[j].length <= rules[i].length)
      && (forall j | 0 <= j < i :: Matches(ip, rules[j]) ==> rules[j].length < rules[i].length)
  }

  lemma {:induction false} PickedIsBest(rules: seq<Rule>, ip: u32, n: nat)
    requires n <= |rules| && forall r | r in rules :: r.length <= 32
    ensures IsBest(rules, ip, n, Picked(rules, ip, n))
  {
    if n > 0 {
      PickedIsBest(rules, ip, n - 1);
    }
  }

  // ---------- Routing ----------

  /** What one datagram becomes: nothing, or a datagram with one hop less for an interface and a next hop. */
  datatype Delivery = Delivery(iface: nat, hop: u32, dgram: Datagram)

  function Forward(rules: seq<Rule>, d: Datagram): Option<Delivery>
    requires forall r | r in rules :: r.length <= 32
  {
    if d.header.ttl <= 1 then None else
    match Picked(rules, d.header.dst, |rules|)
    case None => None
    case Some(k) =>
      var hop := match rules[k].nextHop case Some(h) => h case None => d.header.dst;
      Some(Delivery(rules[k].iface, hop, d.(header := d.header.(ttl := d.header.ttl - 1))))
  }

  /** An interface with the queue of datagrams it has received. */
  datatype Port = Port(interface: Interface, inbox: seq<Datagram>)

  /** The interface `n` once it has been handed, in order, the deliveries meant for it. */
  function SendAll(i: Interface, deliveries: seq<Delivery>, n: nat): Interface
    decreases |deliveries|
  {
    if deliveries == [] then i else
    var x := deliveries[0];
    SendAll(if x.iface == n then SendDatagram(i, x.dgram, x.hop) else i, deliveries[1..], n)
  }

  function Deliveries(rules: seq<Rule>, dgrams: seq<Datagram>): seq<Delivery>
    requires forall r | r in rules :: r.length <= 32
  {
    if dgrams == [] then [] else
    (match Forward(rules, dgrams[0]) case None => [] case Some(x) => [x]) + Deliveries(rules, dgrams[1..])
  }

  function Inboxes(ports: seq<Port>): seq<Datagram> {
    if ports == [] then [] else ports[0].inbox + Inboxes(ports[1..])
  }

  lemma {:induction false} SendAllConcat(i: Interface, a: seq<Delivery>, b: seq<Delivery>, n: nat)
    ensures SendAll(i, a + b, n) == SendAll(SendAll(i, a, n), b, n)
    decreases |a|
  {
    if a == [] {
      assert a + b == b;
    } else {
      assert (a + b)[1..] == a[1..] + b;
      var x := a[0];
      SendAllConcat(if x.iface == n then SendDatagram(i, x.dgram, x.hop) else i, a[1..], b, n);
    }
  }

  lemma {:induction false} DeliveriesConcat(rules: seq<Rule>, a: seq<Datagram>, b: seq<Datagram>)
    requires forall r | r in rules :: r.length <= 32
    ensures Deliveries(rules, a + b) == Deliveries(rules, a) + Deliveries(rules, b)
  {
    if a == [] {
      assert a + b == b;
    } else {
      assert (a + b)[1..] == a[1..] + b;
      DeliveriesConcat(rules, a[1..], b);
    }
  }

  lemma {:induction false} InboxesPop(ports: seq<Port>, i: nat)
    requires i < |ports| && ports[i].inbox != [] && forall k | 0 <= k < i :: ports[k].inbox == []
    ensures Inboxes(ports) == [ports[i].inbox[0]] + Inboxes(ports[i := ports[i].(inbox := ports[i].inbox[1..])])
  {
    var p := ports[i].(inbox := ports[i].inbox[1..]);
    var after := ports[i := p];
    if i == 0 {
      assert after[1..] == ports[1..];
    } else {
      InboxesPop(ports[1..], i - 1);
      assert after[1..] == ports[1..][i - 1 := p];
    }
  }

  lemma {:induction false} InboxesEmpty(ports: seq<Port>)
    requires forall k | 0 <= k < |ports| :: ports[k].inbox == []
    ensures Inboxes(ports) == []
  {
    if ports != [] {
      InboxesEmpty(ports[1..]);
    }
  }

  class Router {
    var ports: seq<Port>
    var rules: seq<Rule>

    ghost predicate WellFormed()
      reads this
    {
      Valid(rules, |ports|)
    }

    /** The loop over the rules: the first of those with the longest matching prefix. */
    method PickRule(ip: u32) returns (picked: Option<nat>)
      requires WellFormed()
      ensures picked == Picked(rules, ip, |rules|) && IsBest(rules, ip, |rules|, picked)
    {
      picked := None;
      for it := 0 to |rules|
        invariant picked == Picked(rules, ip, it)
      {
        if Matches(ip, rules[it]) {
          if picked.None? || rules[picked.value].length < rules[it].length {
            picked := Some(it);
          }
        }
      }
      PickedIsBest(rules, ip, |rules|);
    }

    method RouteOneDatagram(dgram: Datagram)
      requires WellFormed()
      modifies this`ports
      ensures |ports| == |old(ports)|
      ensures forall n | 0 <= n < |ports| :: ports[n].inbox == old(ports)[n].inbox
      ensures forall n | 0 <= n < |ports| ::
        ports[n].interface == SendAll(old(ports)[n].interface, Deliveries(rules, [dgram]), n)
    {
      assert [dgram][1..] == [] && Deliveries(rules, []) == [];
      if dgram.header.ttl <= 1 {
        return;
      }
      var picked := PickRule(dgram.header.dst);
      if picked.Some? {
        var d := dgram.(header := dgram.header.(ttl := dgram.header.ttl - 1));
        var rule := rules[picked.value];
        assert rule in rules;
        var hop := match rule.nextHop case Some(h) => h case None => dgram.header.dst;
        assert Deliveries(rules, [dgram]) == [Delivery(rule.iface, hop, d)];
        var p := ports[rule.iface];
        ports := ports[rule.iface := p.(interface := SendDatagram(p.interface, d, hop))];
      }
    }

    /**
     Empties every inbox. Each interface is handed, exactly once and in order, the datagrams that have hops left and
     whose best rule names it, with one hop less; all others are dropped.
     */
    method Route()
      requires WellFormed()
      modifies this`ports
      ensures |ports| == |old(ports)|
      ensures forall n | 0 <= n < |ports| :: ports[n].inbox == []
      ensures forall n | 0 <= n < |ports| ::
        ports[n].interface == SendAll(old(ports)[n].interface, Deliveries(rules, Inboxes(old(ports))), n)
    {
      ghost var routed := [];
      for i := 0 to |ports|
        invariant |ports| == |old(ports)| && WellFormed()
        invariant forall k | 0 <= k < i :: ports[k].inbox == []
        invariant routed + Inboxes(ports) == Inboxes(old(ports))
        invariant forall n | 0 <= n < |ports| ::
          ports[n].interface == SendAll(old(ports)[n].interface, Deliveries(rules, routed), n)
      {
        while ports[i].inbox != []
          invariant |ports| == |old(ports)| && WellFormed()
          invariant forall k | 0 <= k < i :: ports[k].inbox == []
          invariant routed + Inboxes(ports) == Inboxes(old(ports))
          invariant forall n | 0 <= n < |ports| ::
            ports[n].interface == SendAll(old(ports)[n].interface, Deliveries(rules, routed), n)
          decreases |ports[i].inbox|
        {
          ghost var before := routed;
          routed := RouteFront(i, old(ports), before);
        }
      }
      InboxesEmpty(ports);
      assert routed == Inboxes(old(ports));
    }

    /** Routes and pops the front of inbox `i`. */
    method RouteFront(i: nat, ghost start: seq<Port>, ghost before: seq<Datagram>) returns (ghost routed: seq<Datagram>)
      requires WellFormed() && i < |ports| == |start| && ports[i].inbox != []
      requires forall k | 0 <= k < i :: ports[k].inbox == []
      requires forall n | 0 <= n < |ports| ::
        ports[n].interface == SendAll(start[n].interface, Deliveries(rules, before), n)
      modifies this`ports
      ensures |ports| == |start| && routed == before + [old(ports)[i].inbox[0]]
      ensures ports[i].inbox == old(ports)[i].inbox[1..]
      ensures forall k | 0 <= k < |ports| && k != i :: ports[k].inbox == old(ports)[k].inbox
      ensures before + Inboxes(old(ports)) == routed + Inboxes(ports)
      ensures forall n | 0 <= n < |ports| ::
        ports[n].interface == SendAll(start[n].interface, Deliveries(rules, routed), n)
    {
      var d := ports[i].inbox[0];
      routed := before + [d];
      RouteOneDatagram(d);
      InboxesPop(ports, i);
      SameInboxes(old(ports), ports);
      ports := ports[i := ports[i].(inbox := ports[i].inbox[1..])];
      DeliveriesConcat(rules, before, [d]);
      forall n | 0 <= n < |ports|
        ensures ports[n].interface == SendAll(start[n].interface, Deliveries(rules, routed), n)
      {
        SendAllConcat(start[n].interface, Deliveries(rules, before), Deliveries(rules, [d]), n);
      }
    }
  }

  lemma {:induction false} SameInboxes(a: seq<Port>, b: seq<Port>)
    requires |a| == |b| && forall k | 0 <= k < |a| :: a[k].inbox == b[k].inbox
    ensures Inboxes(a) == Inboxes(b)
  {
    if a != [] {
      SameInboxes(a[1..], b[1..]);
    }
  }
}
