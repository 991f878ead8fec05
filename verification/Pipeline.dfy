/** The three-core packet pipeline of test-pipeline/runtime.c.

  An RX core, a worker core and a TX core share one single-producer/single-consumer
  ring pair per port.  Every call into a ring or a NIC is one atomic step; a run is
  any interleaving of steps of the three cores.  Proved: packet order and conservation
  over every run, a bound on the time RX can spin on a full ring under any fair
  schedule, and the exact sizes for which it cannot spin for ever.
 */
module Pipeline {
  import opened Numbers

  type Packet = int

  /** What TX did with a packet it handed out. */
  datatype Fate = Sent(pkt: Packet) | Freed(pkt: Packet)

  /** A burst offered to the NIC, of which the NIC took the first packets. */
  datatype Burst = Burst(pkts: seq<Packet>, taken: nat)

  datatype Config = Config(
    nPorts: nat, rxCap: nat, txCap: nat,
    rxRead: nat, workerRead: nat, workerWrite: nat, txRead: nat, txWrite: nat)

  /** Slots in struct app_mbuf_array. */
  const MBUF_ARRAY_SIZE := 256
  /** APP_MAX_PORTS */
  const MAX_PORTS := 4

  predicate PortCountOk(n: nat) {
    n == 2 || n == 4
  }

  /** What the three loops need of the sizes to keep packets in order: a port count the
      port check accepts and that is even, a worker that writes what it reads, and bursts
      that fit the mbuf arrays. */
  predicate ValidConfig(c: Config) {
    && PortCountOk(c.nPorts)
    && c.workerRead == c.workerWrite
    && 1 <= c.rxRead <= MBUF_ARRAY_SIZE
    && 1 <= c.workerRead <= MBUF_ARRAY_SIZE
    && 1 <= c.txRead && 1 <= c.txWrite && c.txRead + c.txWrite <= MBUF_ARRAY_SIZE + 1
  }

  /** The sizes in struct app_params; a ring of 128 slots holds 127 packets. */
  function Shipped(nPorts: nat): Config {
    Config(nPorts, 128 - 1, 128 - 1, 64, 64, 64, 64, 64)
  }

  /** i ^ 1 */
  function Partner(i: nat): nat {
    if i % 2 == 0 then i + 1 else i - 1
  }

  /** (i + 1) & (n - 1) for a power of two n */
  function NextPort(c: Config, i: nat): nat {
    if i + 1 == c.nPorts then 0 else i + 1
  }

  lemma PortArithmetic(c: Config, i: nat, b: bv8, m: bv8)
    requires PortCountOk(c.nPorts) && i < c.nPorts
    requires b as int == i && m as int == c.nPorts
    ensures Partner(i) == (b ^ 1) as int < c.nPorts
    ensures NextPort(c, i) == ((b + 1) & (m - 1)) as int < c.nPorts
    ensures Partner(Partner(i)) == i
  {
    assert b == 0 || b == 1 || b == 2 || b == 3;
    assert m == 2 || m == 4;
  }

  /** app_parse_port_mask: at most APP_MAX_PORTS ports, a power of two of them. */
  predicate PortCheck(n: nat) {
    1 <= n <= MAX_PORTS && (n as bv8) & (n as bv8 - 1) == 0
  }

  /** Of the port counts the check lets through, those give every port a partner that are even; it
      also lets through a single port, whose partner does not exist. */
  lemma PartnerExistsIffEven(n: nat)
    ensures PortCheck(n) && (forall i | 0 <= i < n :: Partner(i) < n) <==> PortCountOk(n)
    ensures PortCheck(1) && Partner(0) == 1
  {
    if n == 1 || n == 3 {
      assert Partner(n - 1) == n;
    }
    assert (1 as bv8) & 0 == 0 && (2 as bv8) & 1 == 0 && (4 as bv8) & 3 == 0;
  }

  /** rxHand / workerHand are non-empty exactly while the core spins in its do-while loop.
      received, handedOut, offered and nic are histories: what came in, what TX did with each packet,
      the bursts it offered, and what the NIC took. */
  datatype State = State(
    rxPort: nat, rxHand: seq<Packet>,
    workerPort: nat, workerHand: seq<Packet>,
    txPort: nat,
    rxRing: seq<seq<Packet>>, txRing: seq<seq<Packet>>, txBuf: seq<seq<Packet>>,
    received: seq<seq<Packet>>, handedOut: seq<seq<Fate>>,
    offered: seq<seq<Burst>>, nic: seq<seq<Packet>>)

  function Empty<T>(n: nat): (s: seq<seq<T>>)
    ensures |s| == n && forall i | 0 <= i < n :: s[i] == []
  {
    seq(n, _ => [])
  }

  function Init(c: Config): (s: State)
    ensures ValidConfig(c) ==> Shape(c, s)
  {
    State(0, [], 0, [], 0, Empty(c.nPorts), Empty(c.nPorts), Empty(c.nPorts),
          Empty(c.nPorts), Empty(c.nPorts), Empty(c.nPorts), Empty(c.nPorts))
  }

  ghost predicate Shape(c: Config, s: State) {
    && |s.rxRing| == |s.txRing| == |s.txBuf| == |s.received| == |s.handedOut| == c.nPorts
    && |s.offered| == |s.nic| == c.nPorts
    && s.rxPort < c.nPorts && s.workerPort < c.nPorts && s.txPort < c.nPorts
    && |s.rxHand| <= c.rxRead
    && (s.workerHand == [] || |s.workerHand| == c.workerRead)
    && (forall i | 0 <= i < c.nPorts :: |s.rxRing[i]| <= c.rxCap)
    && (forall i | 0 <= i < c.nPorts :: |s.txRing[i]| <= c.txCap)
    && (forall i | 0 <= i < c.nPorts :: |s.txBuf[i]| < c.txWrite)
  }

  function Packets(fs: seq<Fate>): (ps: seq<Packet>)
    ensures |ps| == |fs|
  {
    seq(|fs|, k requires 0 <= k < |fs| => fs[k].pkt)
  }

  /** The NIC takes the first `sent` packets of the burst, the rest are freed. */
  function HandOut(buf: seq<Packet>, sent: nat): (fs: seq<Fate>)
    ensures Packets(fs) == buf
  {
    seq(|buf|, k requires 0 <= k < |buf| => if k < sent then Sent(buf[k]) else Freed(buf[k]))
  }

  // ---------------------------------------------------------------- one step of each core

  /** RX: poll the NIC when the hand is empty, otherwise try the bulk enqueue once. */
  function RxStep(c: Config, s: State, pkts: seq<Packet>): State
    requires Shape(c, s)
  {
    var i := s.rxPort;
    if s.rxHand == [] then
      if pkts == [] then
        s.(rxPort := NextPort(c, i))
      else
        s.(rxHand := pkts, received := s.received[i := s.received[i] + pkts])
    else if |s.rxRing[i]| + |s.rxHand| <= c.rxCap then
      s.(rxRing := s.rxRing[i := s.rxRing[i] + s.rxHand], rxHand := [], rxPort := NextPort(c, i))
    else
      s
  }

  /** Worker: try the bulk dequeue when idle, otherwise try the bulk enqueue once. */
  function WorkerStep(c: Config, s: State): State
    requires ValidConfig(c) && Shape(c, s)
  {
    var i := s.workerPort;
    var j := Partner(i);
    if s.workerHand == [] then
      if |s.rxRing[i]| < c.workerRead then
        s.(workerPort := NextPort(c, i))
      else
        s.(workerHand := s.rxRing[i][..c.workerRead],
           rxRing := s.rxRing[i := s.rxRing[i][c.workerRead..]])
    else if |s.txRing[j]| + c.workerWrite <= c.txCap then
      s.(txRing := s.txRing[j := s.txRing[j] + s.workerHand], workerHand := [],
         workerPort := NextPort(c, i))
    else
      s
  }

  /** TX: one visit of a port; `sent` is what the NIC accepts if a burst is due. */
  function TxStep(c: Config, s: State, sent: nat): State
    requires Shape(c, s)
  {
    var i := s.txPort;
    if |s.txRing[i]| < c.txRead then
      s.(txPort := NextPort(c, i))
    else
      var buf := s.txBuf[i] + s.txRing[i][..c.txRead];
      var rest := s.txRing[i := s.txRing[i][c.txRead..]];
      if |buf| < c.txWrite then
        s.(txPort := NextPort(c, i), txRing := rest, txBuf := s.txBuf[i := buf])
      else
        var n := Min(sent, |buf|);
        s.(txPort := NextPort(c, i), txRing := rest, txBuf := s.txBuf[i := []],
           handedOut := s.handedOut[i := s.handedOut[i] + HandOut(buf, n)],
           offered := s.offered[i := s.offered[i] + [Burst(buf, n)]],
           nic := s.nic[i := s.nic[i] + buf[..n]])
  }

  /** One scheduling decision, with what the NIC delivers or accepts at that moment. */
  datatype Event = Rx(pkts: seq<Packet>) | Worker | Tx(sent: nat)

  predicate EventOk(c: Config, e: Event) {
    e.Rx? ==> |e.pkts| <= c.rxRead
  }

  predicate EventsOk(c: Config, es: seq<Event>) {
    forall k | 0 <= k < |es| :: EventOk(c, es[k])
  }

  function Step(c: Config, s: State, e: Event): (t: State)
    requires ValidConfig(c) && Shape(c, s) && EventOk(c, e)
    ensures Shape(c, t)
  {
    match e
    case Rx(pkts) => RxStep(c, s, pkts)
    case Worker => WorkerStep(c, s)
    case Tx(sent) => TxStep(c, s, sent)
  }

  function Run(c: Config, s: State, es: seq<Event>): (t: State)
    requires ValidConfig(c) && Shape(c, s) && EventsOk(c, es)
    ensures Shape(c, t)
    decreases |es|
  {
    if es == [] then s else Run(c, Step(c, s, es[0]), es[1..])
  }

  lemma {:induction false} RunConcat(c: Config, s: State, a: seq<Event>, b: seq<Event>)
    requires ValidConfig(c) && Shape(c, s) && EventsOk(c, a) && EventsOk(c, b)
    ensures EventsOk(c, a + b)
    ensures Run(c, s, a + b) == Run(c, Run(c, s, a), b)
    decreases |a|
  {
    if a == [] {
      assert a + b == b;
    } else {
      assert (a + b)[0] == a[0] && (a + b)[1..] == a[1..] + b;
      RunConcat(c, Step(c, s, a[0]), a[1..], b);
    }
  }

  // ---------------------------------------------------------------- order and conservation

  function WorkerPart(s: State, p: nat): seq<Packet> {
    if s.workerPort == p then s.workerHand else []
  }

  function RxPart(s: State, p: nat): seq<Packet> {
    if s.rxPort == p then s.rxHand else []
  }

  /** What has left the worker towards port q, in order. */
  function Downstream(c: Config, s: State, q: nat): seq<Packet>
    requires Shape(c, s) && q < c.nPorts
  {
    Packets(s.handedOut[q]) + s.txBuf[q] + s.txRing[q]
  }

  /** What RX holds or has queued for port p. */
  function Upstream(c: Config, s: State, p: nat): seq<Packet>
    requires Shape(c, s) && p < c.nPorts
  {
    s.rxRing[p] + RxPart(s, p)
  }

  /** Everything that came in on port p, oldest first, by where it is now. */
  function InTransit(c: Config, s: State, p: nat): seq<Packet>
    requires ValidConfig(c) && Shape(c, s) && p < c.nPorts
  {
    Downstream(c, s, Partner(p)) + (WorkerPart(s, p) + Upstream(c, s, p))
  }

  ghost predicate InOrder(c: Config, s: State)
    requires ValidConfig(c) && Shape(c, s)
  {
    forall p | 0 <= p < c.nPorts :: s.received[p] == InTransit(c, s, p)
  }

  lemma PacketsConcat(a: seq<Fate>, b: seq<Fate>)
    ensures Packets(a + b) == Packets(a) + Packets(b)
  {}

  lemma RxExtendsUpstream(c: Config, s: State, pkts: seq<Packet>, p: nat)
    requires ValidConfig(c) && Shape(c, s) && |pkts| <= c.rxRead && p < c.nPorts
    ensures var t := Step(c, s, Rx(pkts));
            var arrived := if s.rxPort == p && s.rxHand == [] then pkts else [];
            && t.received[p] == s.received[p] + arrived
            && Upstream(c, t, p) == Upstream(c, s, p) + arrived
            && Downstream(c, t, Partner(p)) == Downstream(c, s, Partner(p))
            && WorkerPart(t, p) == WorkerPart(s, p)
  {}

  lemma Reassociate(a: seq<Packet>, b: seq<Packet>, d: seq<Packet>, e: seq<Packet>)
    ensures a + (b + (d + e)) == a + (b + d) + e
  {}

  lemma RxKeepsOrder(c: Config, s: State, pkts: seq<Packet>, p: nat)
    requires ValidConfig(c) && Shape(c, s) && |pkts| <= c.rxRead && p < c.nPorts
    requires s.received[p] == InTransit(c, s, p)
    ensures var t := Step(c, s, Rx(pkts)); t.received[p] == InTransit(c, t, p)
  {
    RxExtendsUpstream(c, s, pkts, p);
    hide Step, Downstream, WorkerPart, Upstream;
    Reassociate(Downstream(c, s, Partner(p)), WorkerPart(s, p), Upstream(c, s, p),
                if s.rxPort == p && s.rxHand == [] then pkts else []);
  }

  lemma WorkerTakesOrGives(c: Config, s: State)
    requires ValidConfig(c) && Shape(c, s)
    ensures var t, p := WorkerStep(c, s), s.workerPort;
            var given := if t.workerHand == [] then s.workerHand else [];
            && Downstream(c, t, Partner(p)) == Downstream(c, s, Partner(p)) + given
            && given + (WorkerPart(t, p) + Upstream(c, t, p)) == WorkerPart(s, p) + Upstream(c, s, p)
  {
    hide Packets;
  }

  /** A dequeue moves packets from the ring to the hand, an enqueue from the hand to the
      partner's ring; neither changes the whole. */
  lemma WorkerMoves(c: Config, s: State, p: nat)
    requires ValidConfig(c) && Shape(c, s) && p < c.nPorts
    ensures var t := Step(c, s, Worker);
            var given := if s.workerPort == p && t.workerHand == [] then s.workerHand else [];
            && Downstream(c, t, Partner(p)) == Downstream(c, s, Partner(p)) + given
            && given + (WorkerPart(t, p) + Upstream(c, t, p)) == WorkerPart(s, p) + Upstream(c, s, p)
            && t.received == s.received
  {
    if s.workerPort == p {
      WorkerTakesOrGives(c, s);
    } else {
      assert Partner(s.workerPort) != Partner(p);
    }
  }

  lemma WorkerKeepsOrder(c: Config, s: State, p: nat)
    requires ValidConfig(c) && Shape(c, s) && p < c.nPorts
    requires s.received[p] == InTransit(c, s, p)
    ensures var t := Step(c, s, Worker); t.received[p] == InTransit(c, t, p)
  {
    WorkerMoves(c, s, p);
    hide Step, Downstream, WorkerPart, Upstream;
    var given := if s.workerPort == p && Step(c, s, Worker).workerHand == [] then s.workerHand else [];
    assert forall a: seq<Packet>, b: seq<Packet> :: a + (given + b) == a + given + b;
  }

  lemma TxKeepsDownstream(c: Config, s: State, sent: nat, q: nat)
    requires ValidConfig(c) && Shape(c, s) && q < c.nPorts
    ensures Downstream(c, TxStep(c, s, sent), q) == Downstream(c, s, q)
  {
    if s.txPort == q && |s.txRing[q]| >= c.txRead {
      var t := TxStep(c, s, sent);
      var buf := s.txBuf[q] + s.txRing[q][..c.txRead];
      assert s.txBuf[q] + s.txRing[q] == buf + t.txRing[q];
      assert Downstream(c, s, q) == Packets(s.handedOut[q]) + (s.txBuf[q] + s.txRing[q]);
      PacketsConcat(s.handedOut[q], HandOut(buf, Min(sent, |buf|)));
    }
  }

  lemma TxKeepsOrder(c: Config, s: State, sent: nat, p: nat)
    requires ValidConfig(c) && Shape(c, s) && p < c.nPorts
    requires s.received[p] == InTransit(c, s, p)
    ensures var t := Step(c, s, Tx(sent)); t.received[p] == InTransit(c, t, p)
  {
    TxKeepsDownstream(c, s, sent, Partner(p));
  }

  lemma StepKeepsOrder(c: Config, s: State, e: Event)
    requires ValidConfig(c) && Shape(c, s) && InOrder(c, s) && EventOk(c, e)
    ensures InOrder(c, Step(c, s, e))
  {
    forall p | 0 <= p < c.nPorts
      ensures Step(c, s, e).received[p] == InTransit(c, Step(c, s, e), p)
    {
      match e
      case Rx(pkts) => RxKeepsOrder(c, s, pkts, p);
      case Worker => WorkerKeepsOrder(c, s, p);
      case Tx(sent) => TxKeepsOrder(c, s, sent, p);
    }
  }

  lemma {:induction false} RunKeepsOrder(c: Config, s: State, es: seq<Event>)
    requires ValidConfig(c) && Shape(c, s) && InOrder(c, s) && EventsOk(c, es)
    ensures InOrder(c, Run(c, s, es))
    decreases |es|
  {
    if es != [] {
      StepKeepsOrder(c, s, es[0]);
      RunKeepsOrder(c, Step(c, s, es[0]), es[1..]);
    }
  }

  /** Main result on order: after every interleaving, for every port, what came in is what
      TX handed out on the partner port, followed by what is still inside, in order. */
  lemma OrderOverEveryRun(c: Config, es: seq<Event>, p: nat)
    requires ValidConfig(c) && EventsOk(c, es) && p < c.nPorts
    ensures var s := Run(c, Init(c), es);
            && s.received[p] == InTransit(c, s, p)
            && Packets(s.handedOut[Partner(p)]) <= s.received[p]
  {
    assert InOrder(c, Init(c));
    RunKeepsOrder(c, Init(c), es);
  }

  // ---------------------------------------------------------------- sent and freed

  function SentPart(fs: seq<Fate>): seq<Packet> {
    if fs == [] then []
    else SentPart(fs[..|fs| - 1]) + if fs[|fs| - 1].Sent? then [fs[|fs| - 1].pkt] else []
  }

  function FreedPart(fs: seq<Fate>): seq<Packet> {
    if fs == [] then []
    else FreedPart(fs[..|fs| - 1]) + if fs[|fs| - 1].Freed? then [fs[|fs| - 1].pkt] else []
  }

  lemma {:induction false} PartsConcat(a: seq<Fate>, b: seq<Fate>)
    ensures SentPart(a + b) == SentPart(a) + SentPart(b)
    ensures FreedPart(a + b) == FreedPart(a) + FreedPart(b)
    decreases |b|
  {
    if b == [] {
      assert a + b == a;
    } else {
      assert (a + b)[..|a + b| - 1] == a + b[..|b| - 1];
      PartsConcat(a, b[..|b| - 1]);
    }
  }

  lemma HandOutLast(buf: seq<Packet>, n: nat)
    requires n <= |buf| && buf != []
    ensures var m := |buf| - 1;
            && HandOut(buf, n)[..m] == HandOut(buf[..m], Min(n, m))
            && HandOut(buf, n)[m] == if n == |buf| then Sent(buf[m]) else Freed(buf[m])
  {}

  lemma PrefixLast(buf: seq<Packet>, n: nat)
    requires n <= |buf| && buf != []
    ensures var m := |buf| - 1;
            if n == |buf| then
              buf[..m][..Min(n, m)] + [buf[m]] == buf[..n] && buf[..m][Min(n, m)..] + [] == buf[n..]
            else buf[..m][..Min(n, m)] + [] == buf[..n] && buf[..m][Min(n, m)..] + [buf[m]] == buf[n..]
  {}

  lemma {:induction false} HandOutParts(buf: seq<Packet>, n: nat)
    requires n <= |buf|
    ensures SentPart(HandOut(buf, n)) == buf[..n] && FreedPart(HandOut(buf, n)) == buf[n..]
    decreases |buf|
  {
    if buf == [] {
      assert HandOut(buf, n) == [];
    } else {
      hide HandOut, Min;
      HandOutLast(buf, n);
      PrefixLast(buf, n);
      SmallerHalf(n, |buf| - 1);
      HandOutParts(buf[..|buf| - 1], Min(n, |buf| - 1));
    }
  }

  lemma SmallerHalf(n: nat, m: nat)
    ensures Min(n, m) <= m
  {}

  /** What the NIC took of the bursts it was offered, and what it left. */
  function TakenOf(bs: seq<Burst>): seq<Packet>
    requires forall b | b in bs :: b.taken <= |b.pkts|
  {
    if bs == [] then [] else TakenOf(bs[..|bs| - 1]) + bs[|bs| - 1].pkts[..bs[|bs| - 1].taken]
  }

  function LeftOf(bs: seq<Burst>): seq<Packet>
    requires forall b | b in bs :: b.taken <= |b.pkts|
  {
    if bs == [] then [] else LeftOf(bs[..|bs| - 1]) + bs[|bs| - 1].pkts[bs[|bs| - 1].taken..]
  }

  lemma OneMoreBurst(bs: seq<Burst>, b: Burst)
    requires b.taken <= |b.pkts| && forall d | d in bs :: d.taken <= |d.pkts|
    ensures TakenOf(bs + [b]) == TakenOf(bs) + b.pkts[..b.taken] && LeftOf(bs + [b]) == LeftOf(bs) + b.pkts[b.taken..]
  {
    assert (bs + [b])[..|bs|] == bs;
  }

  /** TX waits until it has a full burst, and never has more than a mbuf array holds. */
  predicate BurstOk(c: Config, b: Burst) {
    b.taken <= |b.pkts| && c.txWrite <= |b.pkts| < c.txWrite + c.txRead && |b.pkts| <= MBUF_ARRAY_SIZE
  }

  /** The packets of port q that count as sent are those the NIC took, in order; the others, which it
      left of each burst, are freed. */
  ghost predicate Accounted(c: Config, s: State, q: nat)
    requires Shape(c, s) && q < c.nPorts
  {
    && (forall b | b in s.offered[q] :: BurstOk(c, b))
    && SentPart(s.handedOut[q]) == s.nic[q] == TakenOf(s.offered[q])
    && FreedPart(s.handedOut[q]) == LeftOf(s.offered[q])
  }

  lemma BurstAccounted(c: Config, s: State, t: State, q: nat, buf: seq<Packet>, n: nat)
    requires Shape(c, s) && Shape(c, t) && q < c.nPorts && Accounted(c, s, q) && BurstOk(c, Burst(buf, n))
    requires t.handedOut[q] == s.handedOut[q] + HandOut(buf, n)
    requires t.offered[q] == s.offered[q] + [Burst(buf, n)] && t.nic[q] == s.nic[q] + buf[..n]
    ensures Accounted(c, t, q)
  {
    hide SentPart, FreedPart, TakenOf, LeftOf, HandOut;
    PartsConcat(s.handedOut[q], HandOut(buf, n));
    HandOutParts(buf, n);
    OneMoreBurst(s.offered[q], Burst(buf, n));
  }

  lemma StepAccounted(c: Config, s: State, e: Event, q: nat)
    requires ValidConfig(c) && Shape(c, s) && EventOk(c, e) && q < c.nPorts && Accounted(c, s, q)
    ensures Accounted(c, Step(c, s, e), q)
  {
    var t := Step(c, s, e);
    if e.Tx? && s.txPort == q && |s.txRing[q]| >= c.txRead && |s.txBuf[q]| + c.txRead >= c.txWrite {
      var buf := s.txBuf[q] + s.txRing[q][..c.txRead];
      hide Accounted, HandOut;
      BurstAccounted(c, s, t, q, buf, Min(e.sent, |buf|));
    } else {
      assert t.handedOut[q] == s.handedOut[q] && t.offered[q] == s.offered[q] && t.nic[q] == s.nic[q];
    }
  }

  lemma {:induction false} RunAccounted(c: Config, s: State, es: seq<Event>, q: nat)
    requires ValidConfig(c) && Shape(c, s) && EventsOk(c, es) && q < c.nPorts && Accounted(c, s, q)
    ensures Accounted(c, Run(c, s, es), q)
    decreases |es|
  {
    if es != [] {
      StepAccounted(c, s, es[0], q);
      hide Accounted;
      RunAccounted(c, Step(c, s, es[0]), es[1..], q);
    }
  }

  /** Main result on ownership: after every interleaving the packets TX counts as sent on a port are
      those the NIC took, and every packet the NIC left of a burst, and no other, is freed. */
  lemma FatesOverEveryRun(c: Config, es: seq<Event>, q: nat)
    requires ValidConfig(c) && EventsOk(c, es) && q < c.nPorts
    ensures Accounted(c, Run(c, Init(c), es), q)
  {
    RunAccounted(c, Init(c), es, q);
  }

  // ---------------------------------------------------------------- ports in turn

  datatype Core = RxSide | WorkerSide | TxSide

  function PortOf(s: State, core: Core): nat {
    match core case RxSide => s.rxPort case WorkerSide => s.workerPort case TxSide => s.txPort
  }

  /** The step ends a visit: the core has dealt with the port, and holds nothing any more. */
  predicate EndsVisit(c: Config, s: State, e: Event, core: Core)
    requires ValidConfig(c) && Shape(c, s) && EventOk(c, e)
  {
    match core
    case RxSide => e.Rx? && Step(c, s, e).rxHand == []
    case WorkerSide => e.Worker? && Step(c, s, e).workerHand == []
    case TxSide => e.Tx?
  }

  function VisitsEnded(c: Config, s: State, es: seq<Event>, core: Core): nat
    requires ValidConfig(c) && Shape(c, s) && EventsOk(c, es)
    decreases |es|
  {
    if es == [] then 0
    else (if EndsVisit(c, s, es[0], core) then 1 else 0) + VisitsEnded(c, Step(c, s, es[0]), es[1..], core)
  }

  lemma StepTurns(c: Config, s: State, e: Event, core: Core)
    requires ValidConfig(c) && Shape(c, s) && EventOk(c, e)
    ensures PortOf(s, core) < c.nPorts
    ensures (PortOf(Step(c, s, e), core)
             == if EndsVisit(c, s, e, core) then (PortOf(s, core) + 1) % c.nPorts else PortOf(s, core))
  {}

  lemma AddToRemainder(p: nat, k: nat, n: nat)
    requires n > 0
    ensures (p % n + k) % n == (p + k) % n
  {
    var r := p % n;
    assert p == p / n * n + r && r + k == (r + k) / n * n + (r + k) % n;
    Times(p / n, (r + k) / n, n);
    DivMod(p + k, n, p / n + (r + k) / n, (r + k) % n);
  }

  lemma AddTurn(p: nat, ends: bool, k: nat, n: nat)
    requires n > 0
    ensures ((if ends then (p + 1) % n else p) + k) % n == (p + ((if ends then 1 else 0) + k)) % n
  {
    AddToRemainder(p + 1, k, n);
  }

  lemma VisitsStep(c: Config, s: State, es: seq<Event>, core: Core)
    requires ValidConfig(c) && Shape(c, s) && EventsOk(c, es) && es != []
    ensures (VisitsEnded(c, s, es, core)
             == (if EndsVisit(c, s, es[0], core) then 1 else 0) + VisitsEnded(c, Step(c, s, es[0]), es[1..], core))
    ensures Run(c, s, es) == Run(c, Step(c, s, es[0]), es[1..])
  {
    hide Step, EndsVisit;
  }

  lemma NoVisits(c: Config, s: State, core: Core)
    requires ValidConfig(c) && Shape(c, s)
    ensures Run(c, s, []) == s && VisitsEnded(c, s, [], core) == 0 && PortOf(s, core) < c.nPorts
  {}

  lemma {:induction false} RunTurns(c: Config, s: State, es: seq<Event>, core: Core)
    requires ValidConfig(c) && Shape(c, s) && EventsOk(c, es)
    ensures c.nPorts > 0 && PortOf(Run(c, s, es), core) == (PortOf(s, core) + VisitsEnded(c, s, es, core)) % c.nPorts
    decreases |es|
  {
    hide Step, EndsVisit, PortOf, Run, VisitsEnded, Shape;
    if es == [] {
      NoVisits(c, s, core);
      SmallMod(PortOf(s, core), c.nPorts);
    } else {
      VisitsStep(c, s, es, core);
      StepTurns(c, s, es[0], core);
      RunTurns(c, Step(c, s, es[0]), es[1..], core);
      AddTurn(PortOf(s, core), EndsVisit(c, s, es[0], core), VisitsEnded(c, Step(c, s, es[0]), es[1..], core), c.nPorts);
    }
  }

  /** Every core serves the ports in turn, and no port is passed over: its k-th visit, counted from 0,
      is one of port k modulo the number of ports, whatever the interleaving. */
  lemma PortsInTurn(c: Config, es: seq<Event>, core: Core)
    requires ValidConfig(c) && EventsOk(c, es)
    ensures PortOf(Run(c, Init(c), es), core) == VisitsEnded(c, Init(c), es, core) % c.nPorts
  {
    RunTurns(c, Init(c), es, core);
  }

  // ---------------------------------------------------------------- liveness

  predicate RxBlocked(c: Config, s: State)
    requires Shape(c, s)
  {
    s.rxHand != [] && |s.rxRing[s.rxPort]| + |s.rxHand| > c.rxCap
  }

  predicate WorkerBlocked(c: Config, s: State)
    requires ValidConfig(c) && Shape(c, s)
  {
    s.workerHand != [] && |s.txRing[Partner(s.workerPort)]| + c.workerWrite > c.txCap
  }

  /** A consumer that visits a ring its producer spins on finds a full burst there. */
  predicate SizesMatch(c: Config) {
    c.rxRead + c.workerRead <= c.rxCap + 1 && c.workerWrite + c.txRead <= c.txCap + 1
  }

  /** Whenever a core spins on a full ring, the ring holds a full burst for its consumer: exactly
      when the sizes match. */
  lemma SpinningMeansFullBurst(c: Config)
    requires ValidConfig(c)
    ensures SizesMatch(c) ==> forall s | Shape(c, s) && RxBlocked(c, s) :: |s.rxRing[s.rxPort]| >= c.workerRead
    ensures SizesMatch(c) ==>
              forall s | Shape(c, s) && WorkerBlocked(c, s) :: |s.txRing[Partner(s.workerPort)]| >= c.txRead
    ensures c.rxRead + c.workerRead > c.rxCap + 1 ==>
              exists s :: Shape(c, s) && RxBlocked(c, s) && |s.rxRing[s.rxPort]| < c.workerRead
    ensures c.workerWrite + c.txRead > c.txCap + 1 ==>
              exists s :: Shape(c, s) && WorkerBlocked(c, s) && |s.txRing[Partner(s.workerPort)]| < c.txRead
  {
    if c.rxRead + c.workerRead > c.rxCap + 1 {
      var n := if c.workerRead - 1 <= c.rxCap then c.workerRead - 1 else c.rxCap;
      var s := Init(c).(rxHand := seq(c.rxRead, _ => 7), rxRing := Empty<Packet>(c.nPorts)[0 := seq(n, _ => 7)]);
      assert Shape(c, s) && RxBlocked(c, s) && |s.rxRing[s.rxPort]| < c.workerRead;
    }
    if c.workerWrite + c.txRead > c.txCap + 1 {
      var n := if c.txRead - 1 <= c.txCap then c.txRead - 1 else c.txCap;
      var s := Init(c).(workerHand := seq(c.workerRead, _ => 7), txRing := Empty<Packet>(c.nPorts)[1 := seq(n, _ => 7)]);
      assert Shape(c, s) && WorkerBlocked(c, s) && |s.txRing[Partner(s.workerPort)]| < c.txRead;
    }
  }

  /** Every burst that enters or leaves a TX ring is a multiple of this many packets. */
  function Unit(c: Config): (g: nat)
    requires ValidConfig(c)
    ensures g > 0
  {
    Gcd(c.workerWrite, c.txRead)
  }

  /** The exact bound on the sizes: a TX ring, which only whole bursts enter and leave, may be
      smaller than SizesMatch asks. */
  predicate SizesFit(c: Config)
    requires ValidConfig(c)
  {
    c.rxRead + c.workerRead <= c.rxCap + 1 && c.workerWrite + c.txRead <= c.txCap + Unit(c)
  }

  predicate InBursts(c: Config, s: State)
    requires ValidConfig(c) && Shape(c, s)
  {
    forall i | 0 <= i < c.nPorts :: Divides(Unit(c), |s.txRing[i]|)
  }

  /** No core can be left to spin on a ring that is too empty for its consumer. */
  predicate Fed(c: Config, s: State)
    requires ValidConfig(c) && Shape(c, s)
  {
    SizesMatch(c) || (SizesFit(c) && InBursts(c, s))
  }

  lemma StepKeepsBursts(c: Config, s: State, e: Event)
    requires ValidConfig(c) && Shape(c, s) && EventOk(c, e) && InBursts(c, s)
    ensures InBursts(c, Step(c, s, e))
  {
    var t, g := Step(c, s, e), Unit(c);
    GcdDivides(c.workerWrite, c.txRead);
    hide Divides, Gcd;
    forall i | 0 <= i < c.nPorts ensures Divides(g, |t.txRing[i]|) {
      if |t.txRing[i]| < |s.txRing[i]| {
        assert |s.txRing[i]| == c.txRead + |t.txRing[i]|;
        DividesSum(g, c.txRead, |t.txRing[i]|);
      } else if |t.txRing[i]| > |s.txRing[i]| {
        assert |t.txRing[i]| == c.workerWrite + |s.txRing[i]|;
        DividesSum(g, c.workerWrite, |s.txRing[i]|);
      }
    }
  }

  lemma {:induction false} RunKeepsBursts(c: Config, s: State, es: seq<Event>)
    requires ValidConfig(c) && Shape(c, s) && EventsOk(c, es) && InBursts(c, s)
    ensures InBursts(c, Run(c, s, es))
    decreases |es|
  {
    if es != [] {
      StepKeepsBursts(c, s, es[0]);
      RunKeepsBursts(c, Step(c, s, es[0]), es[1..]);
    }
  }

  lemma StepKeepsFed(c: Config, s: State, e: Event)
    requires ValidConfig(c) && Shape(c, s) && EventOk(c, e) && Fed(c, s)
    ensures Fed(c, Step(c, s, e))
  {
    if InBursts(c, s) {
      StepKeepsBursts(c, s, e);
    }
  }

  lemma RunKeepsFed(c: Config, s: State, es: seq<Event>)
    requires ValidConfig(c) && Shape(c, s) && EventsOk(c, es) && Fed(c, s)
    ensures Fed(c, Run(c, s, es))
  {
    if InBursts(c, s) {
      RunKeepsBursts(c, s, es);
    }
  }

  /** The TX ring a worker spins on holds a full burst for TX. */
  lemma BlockedWorkerFeedsTx(c: Config, s: State)
    requires ValidConfig(c) && Shape(c, s) && Fed(c, s) && WorkerBlocked(c, s)
    ensures |s.txRing[Partner(s.workerPort)]| >= c.txRead
  {
    if !SizesMatch(c) {
      GcdDivides(c.workerWrite, c.txRead);
      Gap(Unit(c), |s.txRing[Partner(s.workerPort)]|, c.txRead);
    }
  }

  /** Steps from port a to port b in visiting order. */
  function Distance(c: Config, a: nat, b: nat): nat
    requires a < c.nPorts && b < c.nPorts
  {
    if a <= b then b - a else b + c.nPorts - a
  }

  /** Bounds how many TX visits a spinning worker still needs. */
  function TxRank(c: Config, s: State): nat
    requires ValidConfig(c) && Shape(c, s)
  {
    var j := Partner(s.workerPort);
    c.nPorts * |s.txRing[j]| + Distance(c, s.txPort, j)
  }

  function TxRankBound(c: Config): nat {
    c.nPorts * c.txCap + c.nPorts
  }

  /** Progress of the worker towards its next visit of the ring RX spins on. */
  function WorkerRank(c: Config, s: State): nat
    requires ValidConfig(c) && Shape(c, s)
  {
    2 * c.nPorts * |s.rxRing[s.rxPort]|
    + if s.workerHand != [] && s.workerPort == s.rxPort then c.nPorts
      else Distance(c, s.workerPort, s.rxPort)
  }

  function PhaseRank(c: Config, s: State): nat
    requires ValidConfig(c) && Shape(c, s)
  {
    if s.workerHand == [] then TxRankBound(c) + 1
    else if WorkerBlocked(c, s) then TxRank(c, s)
    else 0
  }

  /** Bounds how many fair rounds a spinning RX core still needs. */
  function Rank(c: Config, s: State): nat
    requires ValidConfig(c) && Shape(c, s)
  {
    Weighted(WorkerRank(c, s), TxRankBound(c) + 2) + PhaseRank(c, s)
  }

  function Weighted(a: nat, k: nat): nat {
    MulMono(0, a, k);
    a * k
  }

  lemma TxRankBounded(c: Config, s: State)
    requires ValidConfig(c) && Shape(c, s)
    ensures TxRank(c, s) < TxRankBound(c)
  {
    MulMono(|s.txRing[Partner(s.workerPort)]|, c.txCap, c.nPorts);
  }

  lemma Lexicographic(a: nat, b: nat, k: nat, x: nat)
    requires a < b && x < k
    ensures Weighted(a, k) + x < Weighted(b, k)
  {
    MulMono(a + 1, b, k);
  }

  lemma RankFromWorker(c: Config, s: State, t: State)
    requires ValidConfig(c) && Shape(c, s) && Shape(c, t)
    requires WorkerRank(c, t) < WorkerRank(c, s)
    ensures Rank(c, t) < Rank(c, s)
  {
    TxRankBounded(c, t);
    Lexicographic(WorkerRank(c, t), WorkerRank(c, s), TxRankBound(c) + 2, PhaseRank(c, t));
  }

  lemma RankFromPhase(c: Config, s: State, t: State)
    requires ValidConfig(c) && Shape(c, s) && Shape(c, t)
    requires WorkerRank(c, t) == WorkerRank(c, s)
    ensures Rank(c, t) - Rank(c, s) == PhaseRank(c, t) - PhaseRank(c, s)
  {}

  /** A worker that is idle, or whose ring has room, moves the system on. */
  lemma WorkerStepHelps(c: Config, s: State)
    requires ValidConfig(c) && Shape(c, s) && Fed(c, s)
    requires RxBlocked(c, s) && !WorkerBlocked(c, s)
    ensures Rank(c, Step(c, s, Worker)) < Rank(c, s)
  {
    var t := Step(c, s, Worker);
    var i := s.rxPort;
    if s.workerHand == [] && |s.rxRing[s.workerPort]| >= c.workerRead && s.workerPort != i {
      TxRankBounded(c, t);
      RankFromPhase(c, s, t);
    } else {
      if s.workerHand == [] && s.workerPort == i {
        assert |t.rxRing[i]| + 1 <= |s.rxRing[i]|;
        MulMono(|t.rxRing[i]| + 1, |s.rxRing[i]|, 2 * c.nPorts);
        assert 2 * c.nPorts * (|t.rxRing[i]| + 1) == 2 * c.nPorts * |t.rxRing[i]| + 2 * c.nPorts;
      } else {
        assert t.rxRing[i] == s.rxRing[i];
      }
      RankFromWorker(c, s, t);
    }
  }

  /** Every TX visit brings a spinning worker nearer to its enqueue, or lets it go ahead. */
  lemma TxVisitHelpsWorker(c: Config, s: State, sent: nat)
    requires ValidConfig(c) && Shape(c, s) && Fed(c, s) && WorkerBlocked(c, s)
    ensures var t := Step(c, s, Tx(sent));
            !WorkerBlocked(c, t) || TxRank(c, t) < TxRank(c, s)
  {
    BlockedWorkerFeedsTx(c, s);
    hide Fed;
    var t := Step(c, s, Tx(sent));
    var j := Partner(s.workerPort);
    if s.txPort == j {
      assert |t.txRing[j]| + 1 <= |s.txRing[j]|;
      MulMono(|t.txRing[j]| + 1, |s.txRing[j]|, c.nPorts);
      assert c.nPorts * (|t.txRing[j]| + 1) == c.nPorts * |t.txRing[j]| + c.nPorts;
    } else {
      assert t.txRing[j] == s.txRing[j];
    }
  }

  lemma TxStepHelps(c: Config, s: State, sent: nat)
    requires ValidConfig(c) && Shape(c, s) && Fed(c, s)
    requires RxBlocked(c, s) && WorkerBlocked(c, s)
    ensures Rank(c, Step(c, s, Tx(sent))) < Rank(c, s)
  {
    var t := Step(c, s, Tx(sent));
    TxVisitHelpsWorker(c, s, sent);
    BlockedWorkerFeedsTx(c, s);
    hide Fed;
    var j := Partner(s.workerPort);
    MulMono(1, |s.txRing[j]|, c.nPorts);
    RankFromPhase(c, s, t);
  }

  /** The steps that do not help leave the rank, and who has to move, as they are. */
  lemma OtherStepsAreNeutral(c: Config, s: State, e: Event)
    requires ValidConfig(c) && Shape(c, s) && EventOk(c, e) && RxBlocked(c, s)
    requires e.Rx? || (e.Worker? && WorkerBlocked(c, s)) || (e.Tx? && !WorkerBlocked(c, s))
    ensures Rank(c, Step(c, s, e)) == Rank(c, s)
    ensures WorkerBlocked(c, Step(c, s, e)) == WorkerBlocked(c, s)
  {}

  /** RX spins through all of es. */
  predicate SpinsThrough(c: Config, s: State, es: seq<Event>)
    requires ValidConfig(c) && Shape(c, s) && EventsOk(c, es)
    decreases |es|
  {
    RxBlocked(c, s) && (es == [] || SpinsThrough(c, Step(c, s, es[0]), es[1..]))
  }

  ghost predicate HasWorker(es: seq<Event>) {
    exists k :: 0 <= k < |es| && es[k].Worker?
  }

  ghost predicate HasTx(es: seq<Event>) {
    exists k :: 0 <= k < |es| && es[k].Tx?
  }

  lemma StepNeverRaisesRank(c: Config, s: State, e: Event)
    requires ValidConfig(c) && Shape(c, s) && Fed(c, s) && EventOk(c, e) && RxBlocked(c, s)
    ensures Rank(c, Step(c, s, e)) <= Rank(c, s)
  {
    if e.Worker? && !WorkerBlocked(c, s) {
      WorkerStepHelps(c, s);
    } else if e.Tx? && WorkerBlocked(c, s) {
      TxStepHelps(c, s, e.sent);
    } else {
      OtherStepsAreNeutral(c, s, e);
    }
  }

  lemma {:induction false} RankNeverGrows(c: Config, s: State, es: seq<Event>)
    requires ValidConfig(c) && Shape(c, s) && Fed(c, s) && EventsOk(c, es)
    requires SpinsThrough(c, s, es)
    ensures Rank(c, Run(c, s, es)) <= Rank(c, s)
    decreases |es|
  {
    if es != [] {
      StepNeverRaisesRank(c, s, es[0]);
      StepKeepsFed(c, s, es[0]);
      RankNeverGrows(c, Step(c, s, es[0]), es[1..]);
    }
  }

  lemma {:induction false} RoundLowersRank(c: Config, s: State, es: seq<Event>)
    requires ValidConfig(c) && Shape(c, s) && Fed(c, s) && EventsOk(c, es)
    requires SpinsThrough(c, s, es)
    requires if WorkerBlocked(c, s) then HasTx(es) else HasWorker(es)
    ensures Rank(c, Run(c, s, es)) < Rank(c, s)
    decreases |es|
  {
    var t := Step(c, s, es[0]);
    StepKeepsFed(c, s, es[0]);
    if es[0].Worker? && !WorkerBlocked(c, s) {
      WorkerStepHelps(c, s);
      RankNeverGrows(c, t, es[1..]);
    } else if es[0].Tx? && WorkerBlocked(c, s) {
      TxStepHelps(c, s, es[0].sent);
      RankNeverGrows(c, t, es[1..]);
    } else {
      OtherStepsAreNeutral(c, s, es[0]);
      if WorkerBlocked(c, s) {
        var k :| 0 <= k < |es| && es[k].Tx?;
        assert es[1..][k - 1].Tx?;
      } else {
        var k :| 0 <= k < |es| && es[k].Worker?;
        assert es[1..][k - 1].Worker?;
      }
      RoundLowersRank(c, t, es[1..]);
    }
  }

  /** A fair round: worker and TX both get to run at least once, in any order. */
  ghost predicate FairRound(c: Config, es: seq<Event>) {
    EventsOk(c, es) && HasWorker(es) && HasTx(es)
  }

  /** RX spins through every round of the schedule. */
  ghost predicate SpinsThroughRounds(c: Config, s: State, rounds: seq<seq<Event>>)
    requires ValidConfig(c) && Shape(c, s) && forall k | 0 <= k < |rounds| :: FairRound(c, rounds[k])
    decreases |rounds|
  {
    rounds == [] ||
    (FairRound(c, rounds[0]) && SpinsThrough(c, s, rounds[0]) && SpinsThroughRounds(c, Run(c, s, rounds[0]), rounds[1..]))
  }

  /** Main result on progress: from every fed state, whatever the schedule, RX leaves its do-while
      loop within Rank(c, s) fair rounds. */
  lemma {:induction false} RxSpinIsBounded(c: Config, s: State, rounds: seq<seq<Event>>)
    requires ValidConfig(c) && Shape(c, s) && Fed(c, s)
    requires forall k | 0 <= k < |rounds| :: FairRound(c, rounds[k])
    requires |rounds| > Rank(c, s)
    ensures !SpinsThroughRounds(c, s, rounds)
    decreases |rounds|
  {
    if SpinsThrough(c, s, rounds[0]) {
      RoundLowersRank(c, s, rounds[0]);
      RunKeepsFed(c, s, rounds[0]);
      RxSpinIsBounded(c, Run(c, s, rounds[0]), rounds[1..]);
    }
  }

  /** The worker leaves its own do-while loop within TxRank(c, s) visits of the TX core. */
  predicate WorkerSpinsThrough(c: Config, s: State, es: seq<Event>)
    requires ValidConfig(c) && Shape(c, s) && EventsOk(c, es)
    decreases |es|
  {
    WorkerBlocked(c, s) && (es == [] || WorkerSpinsThrough(c, Step(c, s, es[0]), es[1..]))
  }

  function TxVisits(es: seq<Event>): nat {
    if es == [] then 0 else (if es[0].Tx? then 1 else 0) + TxVisits(es[1..])
  }

  lemma {:induction false} WorkerSpinIsBounded(c: Config, s: State, es: seq<Event>)
    requires ValidConfig(c) && Shape(c, s) && Fed(c, s) && EventsOk(c, es)
    requires TxVisits(es) > TxRank(c, s)
    ensures !WorkerSpinsThrough(c, s, es)
    decreases |es|
  {
    if WorkerBlocked(c, s) {
      if es[0].Tx? { TxVisitHelpsWorker(c, s, es[0].sent); }
      var t := Step(c, s, es[0]);
      StepKeepsFed(c, s, es[0]);
      if WorkerBlocked(c, t) {
        WorkerSpinIsBounded(c, t, es[1..]);
      }
    }
  }

  // ---------------------------------------------------------------- the bound is tight

  /** RX holds a burst the ring has no room for, and the ring holds too little for the worker. */
  ghost predicate Jammed(c: Config, s: State)
    requires ValidConfig(c) && Shape(c, s)
  {
    && RxBlocked(c, s) && s.workerHand == []
    && forall i | 0 <= i < c.nPorts :: |s.rxRing[i]| < c.workerRead
  }

  lemma {:induction false} JamIsForEver(c: Config, s: State, es: seq<Event>)
    requires ValidConfig(c) && Shape(c, s) && Jammed(c, s) && EventsOk(c, es)
    ensures Jammed(c, Run(c, s, es))
    decreases |es|
  {
    if es != [] {
      JamIsForEver(c, Step(c, s, es[0]), es[1..]);
    }
  }

  /** RX is idle, `n` packets wait on RX ring 0 and none on the others. */
  ghost predicate Loaded(c: Config, s: State, n: nat)
    requires ValidConfig(c) && Shape(c, s)
  {
    && s.rxHand == [] && |s.rxRing[0]| == n
    && forall i | 1 <= i < c.nPorts :: s.rxRing[i] == []
  }

  predicate SameBehindRx(s: State, t: State) {
    && t.workerPort == s.workerPort && t.workerHand == s.workerHand
    && t.txPort == s.txPort && t.txRing == s.txRing
  }

  /** RX polls the remaining ports, which deliver nothing, until it is back at port 0. */
  lemma {:induction false} BackToPortZero(c: Config, s: State, n: nat) returns (es: seq<Event>)
    requires ValidConfig(c) && Shape(c, s) && Loaded(c, s, n)
    ensures EventsOk(c, es)
    ensures var t := Run(c, s, es); Loaded(c, t, n) && t.rxPort == 0 && SameBehindRx(s, t)
    decreases if s.rxPort == 0 then 0 else c.nPorts - s.rxPort
  {
    if s.rxPort == 0 {
      es := [];
    } else {
      var rest := BackToPortZero(c, Step(c, s, Rx([])), n);
      es := [Rx([])] + rest;
      assert es[1..] == rest;
    }
  }

  /** RX alone can bring ring 0 from m packets to n. */
  lemma {:induction false} LoadPort(c: Config, s: State, m: nat, n: nat) returns (es: seq<Event>)
    requires ValidConfig(c) && Shape(c, s) && m <= n <= c.rxCap
    requires Loaded(c, s, m) && s.rxPort == 0
    ensures EventsOk(c, es)
    ensures var t := Run(c, s, es); Loaded(c, t, n) && t.rxPort == 0 && SameBehindRx(s, t)
    decreases n
  {
    if n == m {
      es := [];
    } else {
      var before := LoadPort(c, s, m, n - 1);
      RunOne(c, s, before, Rx([7]));
      RunOne(c, s, before + [Rx([7])], Rx([]));
      var es' := before + [Rx([7])] + [Rx([])];
      var after := BackToPortZero(c, Run(c, s, es'), n);
      RunConcat(c, s, es', after);
      es := es' + after;
    }
  }

  /** RX spins from s on whatever happens. */
  ghost predicate StuckForEver(c: Config, s: State)
    requires ValidConfig(c) && Shape(c, s)
  {
    forall more | EventsOk(c, more) :: RxBlocked(c, Run(c, s, more))
  }

  /** RX can be left spinning for ever by some run. */
  ghost predicate CanJam(c: Config)
    requires ValidConfig(c)
  {
    exists es :: EventsOk(c, es) && StuckForEver(c, Run(c, Init(c), es))
  }

  lemma OversizedBurstJams(c: Config, s: State, n: nat, burst: seq<Packet>)
    requires ValidConfig(c) && |burst| == c.rxRead && c.rxRead + c.workerRead > c.rxCap + 1 && Shape(c, s)
    requires Loaded(c, s, n) && s.rxPort == 0 && s.workerHand == []
    requires n == if c.workerRead - 1 <= c.rxCap then c.workerRead - 1 else c.rxCap
    ensures Jammed(c, Step(c, s, Rx(burst)))
  {}

  lemma JamIsStuck(c: Config, s: State)
    requires ValidConfig(c) && Shape(c, s) && Jammed(c, s)
    ensures StuckForEver(c, s)
  {
    forall more | EventsOk(c, more) ensures RxBlocked(c, Run(c, s, more)) {
      JamIsForEver(c, s, more);
    }
  }

  lemma RunOne(c: Config, s: State, es: seq<Event>, e: Event)
    requires ValidConfig(c) && Shape(c, s) && EventsOk(c, es) && EventOk(c, e)
    ensures EventsOk(c, es + [e]) && Run(c, s, es + [e]) == Step(c, Run(c, s, es), e)
  {
    RunConcat(c, s, es, [e]);
    assert [e][1..] == [];
    assert Run(c, Run(c, s, es), [e]) == Run(c, Step(c, Run(c, s, es), e), []);
  }

  lemma ReachJam(c: Config) returns (es: seq<Event>)
    requires ValidConfig(c) && c.rxRead + c.workerRead > c.rxCap + 1
    ensures EventsOk(c, es) && Jammed(c, Run(c, Init(c), es))
  {
    var n := if c.workerRead - 1 <= c.rxCap then c.workerRead - 1 else c.rxCap;
    var load := LoadPort(c, Init(c), 0, n);
    var burst: seq<Packet> := seq(c.rxRead, _ => 7);
    OversizedBurstJams(c, Run(c, Init(c), load), n, burst);
    RunOne(c, Init(c), load, Rx(burst));
    es := load + [Rx(burst)];
  }

  /** One packet too many: when the RX and worker bursts together exceed the ring capacity
      by more than one, some run leaves RX spinning whatever happens afterwards. */
  lemma OversizedBurstsJam(c: Config)
    requires ValidConfig(c) && c.rxRead + c.workerRead > c.rxCap + 1
    ensures CanJam(c)
  {
    var es := ReachJam(c);
    JamIsStuck(c, Run(c, Init(c), es));
  }

  lemma StuckAfter(c: Config, s: State, es: seq<Event>)
    requires ValidConfig(c) && Shape(c, s) && EventsOk(c, es) && StuckForEver(c, s)
    ensures StuckForEver(c, Run(c, s, es))
  {
    hide RxBlocked, Run, Shape, ValidConfig, EventsOk;
    forall more | EventsOk(c, more) ensures RxBlocked(c, Run(c, Run(c, s, es), more)) {
      RunConcat(c, s, es, more);
    }
  }

  lemma {:induction false} StuckSpins(c: Config, s: State, es: seq<Event>)
    requires ValidConfig(c) && Shape(c, s) && EventsOk(c, es) && StuckForEver(c, s)
    ensures SpinsThrough(c, s, es)
    decreases |es|
  {
    assert RxBlocked(c, Run(c, s, []));
    if es != [] {
      StuckAfter(c, s, es[..1]);
      assert es[..1][1..] == [];
      assert Run(c, s, es[..1]) == Step(c, s, es[0]);
      StuckSpins(c, Step(c, s, es[0]), es[1..]);
    }
  }

  /** Alternating worker and TX unblocks RX, so no fed state is stuck. */
  lemma {:induction false} NoStuckState(c: Config, s: State)
    requires ValidConfig(c) && Shape(c, s) && Fed(c, s)
    ensures !StuckForEver(c, s)
    decreases Rank(c, s)
  {
    if StuckForEver(c, s) {
      var round := [Worker, Tx(0)];
      assert round[0].Worker? && round[1].Tx?;
      StuckSpins(c, s, round);
      RoundLowersRank(c, s, round);
      RunKeepsFed(c, s, round);
      StuckAfter(c, s, round);
      NoStuckState(c, Run(c, s, round));
    }
  }

  // ---------------------------------------------------------------- a TX ring that is too small

  /** All three RX stages are idle at port 0 and the TX ring the worker feeds from there holds x. */
  ghost predicate Base(c: Config, s: State, x: nat)
    requires ValidConfig(c) && Shape(c, s)
  {
    Loaded(c, s, 0) && s.rxPort == 0 && s.workerPort == 0 && s.workerHand == [] && |s.txRing[1]| == x
  }

  /** The worker spins on a TX ring too full for it and too empty for TX, RX on a full ring. */
  ghost predicate Clogged(c: Config, s: State)
    requires ValidConfig(c) && Shape(c, s)
  {
    && RxBlocked(c, s) && WorkerBlocked(c, s) && s.workerPort == 0
    && |s.txRing[1]| < c.txRead
  }

  lemma {:induction false} ClogIsForEver(c: Config, s: State, es: seq<Event>)
    requires ValidConfig(c) && Shape(c, s) && Clogged(c, s) && EventsOk(c, es)
    ensures Clogged(c, Run(c, s, es))
    decreases |es|
  {
    if es != [] {
      ClogIsForEver(c, Step(c, s, es[0]), es[1..]);
    }
  }

  /** From a base state, a burst for the worker arrives and is taken. */
  lemma TakeBurst(c: Config, s: State, x: nat) returns (es: seq<Event>)
    requires ValidConfig(c) && Shape(c, s) && Base(c, s, x) && c.workerRead <= c.rxCap
    ensures EventsOk(c, es)
    ensures var t := Run(c, s, es);
            Loaded(c, t, 0) && t.rxPort == 0 && t.workerPort == 0 && t.workerHand != [] && |t.txRing[1]| == x
  {
    var load := LoadPort(c, s, 0, c.workerRead);
    RunOne(c, s, load, Worker);
    es := load + [Worker];
  }

  /** The worker finds nothing on the remaining ports and is back at port 0. */
  lemma {:induction false} WorkerHome(c: Config, s: State, x: nat) returns (es: seq<Event>)
    requires ValidConfig(c) && Shape(c, s) && Loaded(c, s, 0) && s.rxPort == 0
    requires s.workerHand == [] && |s.txRing[1]| == x
    ensures EventsOk(c, es) && Base(c, Run(c, s, es), x)
    decreases if s.workerPort == 0 then 0 else c.nPorts - s.workerPort
  {
    if s.workerPort == 0 {
      es := [];
    } else {
      var rest := WorkerHome(c, Step(c, s, Worker), x);
      es := [Worker] + rest;
      assert es[1..] == rest;
    }
  }

  lemma FeedOnce(c: Config, s: State, x: nat) returns (es: seq<Event>)
    requires ValidConfig(c) && Shape(c, s) && Base(c, s, x) && c.workerRead <= c.rxCap
    requires x + c.workerWrite <= c.txCap
    ensures EventsOk(c, es) && Base(c, Run(c, s, es), x + c.workerWrite)
  {
    var take := TakeBurst(c, s, x);
    RunOne(c, s, take, Worker);
    var home := WorkerHome(c, Run(c, s, take + [Worker]), x + c.workerWrite);
    RunConcat(c, s, take + [Worker], home);
    es := take + [Worker] + home;
  }

  /** TX comes to port 1 and takes a burst there. */
  lemma {:induction false} DrainOnce(c: Config, s: State, x: nat) returns (es: seq<Event>)
    requires ValidConfig(c) && Shape(c, s) && Base(c, s, x) && c.txRead <= x
    ensures EventsOk(c, es) && Base(c, Run(c, s, es), x - c.txRead)
    decreases Distance(c, s.txPort, 1)
  {
    if s.txPort == 1 {
      es := [Tx(0)];
      assert es[1..] == [];
    } else {
      var rest := DrainOnce(c, Step(c, s, Tx(0)), x);
      es := [Tx(0)] + rest;
      assert es[1..] == rest;
    }
  }

  lemma Clog(c: Config, s: State, x: nat) returns (es: seq<Event>)
    requires ValidConfig(c) && Shape(c, s) && Base(c, s, x) && c.workerRead <= c.rxCap
    requires x + c.workerWrite > c.txCap && x < c.txRead
    ensures EventsOk(c, es) && Clogged(c, Run(c, s, es))
  {
    var take := TakeBurst(c, s, x);
    var load := LoadPort(c, Run(c, s, take), 0, c.rxCap);
    RunConcat(c, s, take, load);
    RunOne(c, s, take + load, Rx([7]));
    es := take + load + [Rx([7])];
  }

  /** Where k bursts fed to a circle of workerWrite + txRead places end. */
  function Place(c: Config, k: nat): nat
    requires ValidConfig(c)
  {
    Weighted(k, c.workerWrite) % (c.workerWrite + c.txRead)
  }

  /** Feeding while a burst fits and draining when it does not, the level of the ring goes
      round that circle, or the cores get stuck on the way. */
  ghost predicate OnTheWay(c: Config, s: State, k: nat)
    requires ValidConfig(c) && Shape(c, s)
  {
    Base(c, s, Place(c, k)) || Clogged(c, s)
  }

  lemma {:induction false} Walk(c: Config, k: nat) returns (es: seq<Event>)
    requires ValidConfig(c) && c.workerRead <= c.rxCap
    requires c.txCap < c.workerWrite + c.txRead
    ensures EventsOk(c, es) && OnTheWay(c, Run(c, Init(c), es), k)
  {
    if k == 0 {
      es := [];
      FirstPlace(c);
    } else {
      es := Walk(c, k - 1);
      var more := WalkOn(c, Run(c, Init(c), es), k - 1);
      hide OnTheWay, Init;
      RunConcat(c, Init(c), es, more);
      es := es + more;
    }
  }

  lemma WalkOn(c: Config, s: State, k: nat) returns (es: seq<Event>)
    requires ValidConfig(c) && Shape(c, s) && c.workerRead <= c.rxCap
    requires c.txCap < c.workerWrite + c.txRead
    requires OnTheWay(c, s, k)
    ensures EventsOk(c, es) && OnTheWay(c, Run(c, s, es), k + 1)
  {
    es := [];
    if !Clogged(c, s) {
      NextPlace(c, k);
      hide Place;
      var x := Place(c, k);
      if x + c.workerWrite <= c.txCap {
        es := FeedOnce(c, s, x);
      } else if x >= c.txRead {
        es := DrainOnce(c, s, x);
      } else {
        es := Clog(c, s, x);
      }
    }
  }

  lemma FirstPlace(c: Config)
    requires ValidConfig(c)
    ensures Place(c, 0) == 0
  {
    SmallMod(0, c.workerWrite + c.txRead);
  }

  lemma NextPlace(c: Config, k: nat)
    requires ValidConfig(c)
    ensures Place(c, k) < c.workerWrite + c.txRead
    ensures Place(c, k + 1) == if Place(c, k) + c.workerWrite < c.workerWrite + c.txRead
                               then Place(c, k) + c.workerWrite else Place(c, k) - c.txRead
  {
    Times(k, 1, c.workerWrite);
    AddOnCircle(Weighted(k, c.workerWrite), c.workerWrite, c.txRead);
  }

  lemma AddOnCircle(p: nat, a: nat, b: nat)
    requires a > 0 && b > 0
    ensures (p + a) % (a + b) == if p % (a + b) + a < a + b then p % (a + b) + a else p % (a + b) - b
  {
    var n := a + b;
    var q, x := p / n, p % n;
    if x + a < n {
      DivMod(p + a, n, q, x + a);
    } else {
      DivMod(p + a, n, q + 1, x - b);
    }
  }

  /** A TX ring below the bound by one burst unit or more clogs on some run. */
  lemma SmallTxRingJams(c: Config)
    requires ValidConfig(c) && c.workerRead <= c.rxCap
    requires c.workerWrite + c.txRead > c.txCap + Unit(c)
    ensures CanJam(c)
  {
    var k := CircleReaches(c.workerWrite, c.txRead);
    var es := Walk(c, k);
    var s := Run(c, Init(c), es);
    assert Clogged(c, s);
    forall more | EventsOk(c, more) ensures RxBlocked(c, Run(c, s, more)) {
      ClogIsForEver(c, s, more);
    }
  }

  /** The exact condition: RX can be left spinning for ever if and only if its burst and the
      worker's exceed the RX ring's capacity plus one, or the worker's and TX's exceed the TX
      ring's capacity plus their greatest common divisor. */
  lemma JamIffOversized(c: Config)
    requires ValidConfig(c)
    ensures CanJam(c) <==>
            || c.rxRead + c.workerRead > c.rxCap + 1
            || c.workerWrite + c.txRead > c.txCap + Gcd(c.workerWrite, c.txRead)
  {
    if c.rxRead + c.workerRead > c.rxCap + 1 {
      OversizedBurstsJam(c);
    } else if c.workerWrite + c.txRead > c.txCap + Unit(c) {
      SmallTxRingJams(c);
    } else if CanJam(c) {
      FittingSizesNeverJam(c);
    }
  }

  lemma FittingSizesNeverJam(c: Config)
    requires ValidConfig(c) && SizesFit(c)
    ensures !CanJam(c)
  {
    InitFed(c);
    hide StuckForEver, SizesFit, Fed, Init, Run, Shape, EventsOk;
    forall es | EventsOk(c, es) ensures !StuckForEver(c, Run(c, Init(c), es)) {
      RunKeepsFed(c, Init(c), es);
      NoStuckState(c, Run(c, Init(c), es));
    }
  }

  lemma InitFed(c: Config)
    requires ValidConfig(c) && SizesFit(c)
    ensures Fed(c, Init(c))
  {
    SmallMod(0, Unit(c));
  }

  /** The sizes the program ships with meet the bound with nothing to spare on the RX side: one
      slot less in the RX ring, or one packet more in the RX burst, and RX can jam.  The TX rings
      need to hold no more than one burst. */
  lemma ShippedSizesAreTight(nPorts: nat, txCap: nat)
    requires PortCountOk(nPorts)
    ensures var c := Shipped(nPorts);
            && ValidConfig(c) && SizesMatch(c) && !CanJam(c)
            && CanJam(c.(rxCap := c.rxCap - 1)) && CanJam(c.(rxRead := c.rxRead + 1))
            && (CanJam(c.(txCap := txCap)) <==> txCap < 64)
  {
    var c := Shipped(nPorts);
    JamIffOversized(c);
    JamIffOversized(c.(rxCap := c.rxCap - 1));
    JamIffOversized(c.(rxRead := c.rxRead + 1));
    JamIffOversized(c.(txCap := txCap));
  }

  // ---------------------------------------------------------------- the cores, in place

  /** struct app_params with the hands of the RX and worker cores.  Each method is one atomic
      step of one core and changes the shared fields the way its loop body does. */
  class App {
    const c: Config
    var rxPort: nat
    var rxHand: seq<Packet>
    var workerPort: nat
    var workerHand: seq<Packet>
    var txPort: nat
    var rxRing: seq<seq<Packet>>
    var txRing: seq<seq<Packet>>
    var txBuf: seq<seq<Packet>>
    ghost var received: seq<seq<Packet>>
    ghost var handedOut: seq<seq<Fate>>
    ghost var offered: seq<seq<Burst>>
    ghost var nic: seq<seq<Packet>>

    ghost function Abs(): State
      reads this
    {
      State(rxPort, rxHand, workerPort, workerHand, txPort, rxRing, txRing, txBuf, received, handedOut, offered, nic)
    }

    ghost predicate Valid()
      reads this
    {
      ValidConfig(c) && Shape(c, Abs()) && InOrder(c, Abs())
    }

    constructor (config: Config)
      requires ValidConfig(config)
      ensures c == config && Valid() && Abs() == Init(config)
    {
      c := config;
      rxPort, workerPort, txPort := 0, 0, 0;
      rxHand, workerHand := [], [];
      rxRing, txRing, txBuf := Empty(config.nPorts), Empty(config.nPorts), Empty(config.nPorts);
      received, handedOut := Empty(config.nPorts), Empty(config.nPorts);
      offered, nic := Empty(config.nPorts), Empty(config.nPorts);
    }

    /** rte_ring_sp_enqueue_bulk on an RX ring: all or nothing. */
    method EnqueueRx(i: nat, burst: seq<Packet>) returns (n: nat)
      requires i < |rxRing|
      modifies `rxRing
      ensures n == if |old(rxRing)[i]| + |burst| <= c.rxCap then |burst| else 0
      ensures rxRing == if |old(rxRing)[i]| + |burst| <= c.rxCap
                        then old(rxRing)[i := old(rxRing)[i] + burst] else old(rxRing)
    {
      n := 0;
      if |rxRing[i]| + |burst| <= c.rxCap {
        rxRing := rxRing[i := rxRing[i] + burst];
        n := |burst|;
      }
    }

    method RxCore(pkts: seq<Packet>)
      requires Valid() && |pkts| <= c.rxRead
      modifies this
      ensures Valid() && Abs() == Step(c, old(Abs()), Rx(pkts))
    {
      StepKeepsOrder(c, Abs(), Rx(pkts));
      var i := rxPort;
      if rxHand == [] {
        if pkts == [] {
          rxPort := NextPort(c, i);
        } else {
          rxHand := pkts;
          received := received[i := received[i] + pkts];
        }
      } else {
        var ret := EnqueueRx(i, rxHand);
        if ret != 0 {
          rxHand, rxPort := [], NextPort(c, i);
        }
      }
    }

    method WorkerCore()
      requires Valid()
      modifies this
      ensures Valid() && Abs() == Step(c, old(Abs()), Worker)
    {
      StepKeepsOrder(c, Abs(), Worker);
      var i := workerPort;
      if workerHand == [] {
        if |rxRing[i]| < c.workerRead {
          workerPort := NextPort(c, i);
        } else {
          workerHand := rxRing[i][..c.workerRead];
          rxRing := rxRing[i := rxRing[i][c.workerRead..]];
        }
      } else if |txRing[Partner(i)]| + c.workerWrite <= c.txCap {
        txRing := txRing[Partner(i) := txRing[Partner(i)] + workerHand];
        workerHand, workerPort := [], NextPort(c, i);
      }
    }

    /** rte_eth_tx_burst: the NIC takes a prefix of the burst. */
    method TxBurst(i: nat, mbufs: seq<Packet>, accept: nat) returns (n_pkts: nat)
      requires i < |offered| && i < |nic|
      modifies `offered, `nic
      ensures n_pkts == Min(accept, |mbufs|)
      ensures offered == old(offered)[i := old(offered)[i] + [Burst(mbufs, n_pkts)]]
      ensures nic == old(nic)[i := old(nic)[i] + mbufs[..n_pkts]]
    {
      n_pkts := Min(accept, |mbufs|);
      offered := offered[i := offered[i] + [Burst(mbufs, n_pkts)]];
      nic := nic[i := nic[i] + mbufs[..n_pkts]];
    }

    /** The burst goes to the NIC, and what it did not take is freed. */
    method Transmit(i: nat, mbufs: seq<Packet>, accept: nat)
      requires i < |handedOut| && i < |offered| && i < |nic|
      modifies `handedOut, `offered, `nic
      ensures var n := Min(accept, |mbufs|);
              && handedOut == old(handedOut)[i := old(handedOut)[i] + HandOut(mbufs, n)]
              && offered == old(offered)[i := old(offered)[i] + [Burst(mbufs, n)]]
              && nic == old(nic)[i := old(nic)[i] + mbufs[..n]]
    {
      var n_pkts := TxBurst(i, mbufs, accept);
      ghost var fates := seq(n_pkts, k requires 0 <= k < n_pkts => Sent(mbufs[k]));
      var k := n_pkts;
      while k < |mbufs|
        invariant n_pkts <= k <= |mbufs| && |fates| == k
        invariant forall m | 0 <= m < k :: fates[m] == HandOut(mbufs, n_pkts)[m]
      {
        fates := fates + [Freed(mbufs[k])];
        k := k + 1;
      }
      assert fates == HandOut(mbufs, n_pkts);
      handedOut := handedOut[i := handedOut[i] + fates];
    }

    /** `accept` is what the NIC takes if a burst is due. */
    method TxCore(accept: nat)
      requires Valid()
      modifies this
      ensures Valid() && Abs() == Step(c, old(Abs()), Tx(accept))
    {
      StepKeepsOrder(c, Abs(), Tx(accept));
      var i := txPort;
      txPort := NextPort(c, i);
      if |txRing[i]| < c.txRead { return; }
      var mbufs := txBuf[i] + txRing[i][..c.txRead];
      txRing := txRing[i := txRing[i][c.txRead..]];
      if |mbufs| < c.txWrite {
        txBuf := txBuf[i := mbufs];
        return;
      }
      Transmit(i, mbufs, accept);
      txBuf := txBuf[i := []];
    }
  }
}
