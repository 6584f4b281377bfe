/** A run that ends where a fair round does not advance the sender: both windows may be set so wide that the oldest
    segment, already received, looks like one from the future. */
module KcpStuck {
  import opened Basics
  import opened KcpWire
  import opened KcpSpec
  import opened KcpWindow
  import opened KcpDatagram
  import opened KcpMessages
  import opened KcpSystem
  import opened KcpProgress

  const WIDE: Config := Config(1, 1400, HALF - 1, HALF - 1, 5000, 1, 30, 20, 0, 5, true)
  const FIRST: Frag := Frag(0, [7])
  const SECOND: Frag := Frag(0, [8])

  /** The sending endpoint at time `now`. */
  predicate SenderAt(k: Kcp, now: u32, queue: seq<Frag>, buf: seq<Seg>) {
    && k.cfg == WIDE && k.snd == Sender(0, |buf| % WORD, queue, buf) && k.rcv == Receiver(0, [], [], [])
    && k.ctl.current == now && k.ctl.updated && k.ctl.rmtWnd == 128 && k.ctl.rto == 200 && k.ctl.tsFlush == 5000
    && !k.ctl.askSend && !k.ctl.askTell
  }

  /** The receiving endpoint, with `queue` received and nothing of its own to send. */
  predicate ReceiverAt(k: Kcp, queue: seq<Packet>, acks: seq<Ack>) {
    && k.cfg == WIDE && k.snd == Sender(0, 0, [], []) && k.rcv == Receiver(|queue| % WORD, queue, [], acks)
    && k.ctl.updated && k.ctl.rmtWnd != 0 && !k.ctl.askSend && !k.ctl.askTell
  }

  function Wire(sn: u32, ts: u32, f: Frag): Packet {
    Packet(1, CMD_PUSH, f.frg, 65535, ts, sn, 0, f.data)
  }

  function Sent(sn: u32, ts: u32, f: Frag): Seg {
    Seg(Wire(sn, ts, f), Add(ts, 200), 200, 0, 1)
  }

  // ----- what single calls do in these states -----

  lemma {:induction false} Submitted(k: Kcp, now: u32, buf: seq<Seg>, f: Frag)
    requires SenderAt(k, now, [], buf) && |f.data| == 1 && f.frg == 0
    ensures Send(k, f.data, 1).1 == 0 && SenderAt(Send(k, f.data, 1).0, now, [f], buf)
  {
    assert f.data[..1] == f.data;
    assert Fragments(f.data, WIDE.Mss(), 1) == [f] + Fragments(f.data[1..], WIDE.Mss(), 0);
  }

  lemma {:induction false} Later(k: Kcp, now: u32, queue: seq<Frag>, buf: seq<Seg>, later: u32)
    requires SenderAt(k, now, queue, buf) && Stocked(k.cfg, k.snd) && later < 5000
    ensures SenderAt(Update(k, later).0, later, queue, buf) && Update(k, later).1 == []
  {
  }

  lemma {:induction false} Begins(k: Kcp)
    requires k == Create(WIDE)
    ensures Stocked(WIDE, k.snd) && Update(k, 0).1 == []
    ensures SenderAt(Update(k, 0).0, 0, [], []) && ReceiverAt(Update(k, 0).0, [], [])
  {
  }

  lemma {:induction false} LoopIdle(buf: seq<Seg>, p: Policy)
    requires forall i :: 0 <= i < |buf| ==> Why(buf[i], p) == Idle
    ensures DataPackets(buf, p) == [] && XmitAll(buf, p) == buf
    decreases |buf|
  {
    if buf != [] {
      LoopIdle(buf[..|buf| - 1], p);
    }
  }

  /** A flush numbers the waiting segment and sends it, and repeats nothing. */
  lemma {:induction false} SendsNext(k: Kcp, now: u32, buf: seq<Seg>, f: Frag)
    requires SenderAt(k, now, [f], buf) && |buf| < 100 && now < 5000 && Stocked(k.cfg, k.snd)
    requires forall i :: 0 <= i < |buf| ==> Why(buf[i], PolicyOf(k)) == Idle
    ensures FlushPackets(k) == [Wire(|buf|, now, f)]
    ensures SenderAt(Flush(k).0, now, [], buf + [Sent(|buf|, now, f)])
  {
    hide Promoted, Times, Bump, Tally, GivesUp, Stocked, AppendAll;
    var p, last := PolicyOf(k), Number(f, |buf|, 200, StampOf(k));
    var s := NextNumbered(k, now, buf, f);
    assert s.buf[..|buf|] == buf;
    LoopIdle(buf, p);
    assert Xmit(last, p) == Sent(|buf|, now, f);
    assert DataPackets(s.buf, p) == [] + [Xmit(last, p).pkt];
    SentLast(buf, last, p);
    assert AckPackets([], StampOf(k)) == [];
  }

  lemma {:induction false} NextNumbered(k: Kcp, now: u32, buf: seq<Seg>, f: Frag) returns (s: Sender)
    requires SenderAt(k, now, [f], buf) && |buf| < 100
    ensures s == Promoted(k) == Sender(0, |buf| + 1, [], buf + [Number(f, |buf|, 200, StampOf(k))])
  {
    s := Promoted(k);
    assert Window(WIDE, k.ctl) == 128;
    var next := Sender(0, |buf| + 1, [f][1..], buf + [Number(f, |buf|, 200, StampOf(k))]);
    assert [f][1..] == [];
    assert Promote(next, 128, 200, StampOf(k)) == next;
    assert Promote(k.snd, 128, 200, StampOf(k)) == next;
  }

  lemma {:induction false} SentLast(buf: seq<Seg>, last: Seg, p: Policy)
    requires XmitAll(buf, p) == buf
    ensures XmitAll(buf + [last], p) == buf + [Xmit(last, p)]
  {
    forall i | 0 <= i < |buf| ensures XmitAll(buf + [last], p)[i] == buf[i] {
      assert XmitAll(buf, p)[i] == buf[i];
    }
  }

  /** Of two segments, only the first is due at time 250. */
  lemma {:induction false} RepeatsFirst(k: Kcp)
    requires SenderAt(k, 250, [], [Sent(0, 0, FIRST), Sent(1, 100, SECOND)])
    ensures FlushPackets(k) == [Wire(0, 250, FIRST)] && HeadDue(k)
  {
    var p, buf := PolicyOf(k), k.snd.buf;
    assert Promoted(k) == k.snd;
    assert buf[..1] == [Sent(0, 0, FIRST)] && buf[..1][..0] == [];
    assert DataPackets(buf[..1][..0], p) == [];
    assert DataPackets(buf[..1], p) == [] + [Wire(0, 250, FIRST)];
    assert DataPackets(buf, p) == DataPackets(buf[..1], p) + [];
    assert AckPackets([], StampOf(k)) == [];
  }

  /** A flush that chose one small segment emits one datagram, which is read as that segment. */
  lemma {:induction false} OneDatagram(k: Kcp, q: Packet)
    requires k.cfg == WIDE && Stocked(k.cfg, k.snd) && k.ctl.updated && FlushPackets(k) == [q]
    ensures Flush(k).1 == [Encode(q)] && Parse(1, Encode(q)) == Parsed([q], 0) && |Encode(q)| >= OVERHEAD
  {
    FlushParsesBack(k);
    FlushSendable(k);
    assert [q][..0] == [] && FlushPackets(k)[0] == q;
    assert AppendAll(Out([], []), [], 1400) == Out([], []);
    assert [] + Encode(q) == Encode(q);
    assert AppendAll(Out([], []), [q], 1400) == Out([], Encode(q));
    assert Flush(k).1 == [Encode(q)];
    assert [Encode(q)][..0] == [];
    assert ParseDatagrams(1, [Encode(q)]) == [] + Parse(1, Encode(q)).packets;
    assert Whole(1, Flush(k).1[0]);
  }

  /** A data segment at the receiving endpoint: only the receiver's half of the state moves. */
  lemma {:induction false} PushArrives(k: Kcp, queue: seq<Packet>, acks: seq<Ack>, q: Packet)
    requires ReceiverAt(k, queue, acks) && q.cmd == CMD_PUSH && q.una == 0 && q.wnd != 0
    requires Parse(1, Encode(q)) == Parsed([q], 0) && |Encode(q)| >= OVERHEAD
    ensures var k' := Input(k, Encode(q)).0;
            && k'.cfg == WIDE && k'.snd == k.snd && k'.rcv == TakePush(k.rcv, q, WIDE.rcvWnd)
            && k'.ctl == k.ctl.(rmtWnd := q.wnd)
  {
    var st := Scan(k, false, 0);
    assert TakeAll(st, [q]) == TakeAll(KcpSpec.Take(st, q), [q][1..]) == KcpSpec.Take(st, q);
    assert TakeUna(k.snd, 0) == k.snd;
  }

  /** The next segment in order goes straight to the queue. */
  lemma {:induction false} NextArrives(k: Kcp, queue: seq<Packet>, acks: seq<Ack>, q: Packet)
    requires ReceiverAt(k, queue, acks) && q.cmd == CMD_PUSH && q.una == 0 && q.wnd != 0 && q.sn == |queue| < 100
    requires Parse(1, Encode(q)) == Parsed([q], 0) && |Encode(q)| >= OVERHEAD
    ensures ReceiverAt(Input(k, Encode(q)).0, queue + [q], acks + [Ack(q.sn, q.ts)])
  {
    hide Input, Encode, Parse, TakePush;
    PushArrives(k, queue, acks, q);
    NextTaken(k.rcv, q);
  }

  lemma {:induction false} NextTaken(r: Receiver, q: Packet)
    requires q.sn == r.nxt < 100 && r.buf == [] && |r.queue| < 100
    ensures TakePush(r, q, WIDE.rcvWnd) == Receiver(r.nxt + 1, r.queue + [q], [], r.acks + [Ack(q.sn, q.ts)])
  {
    hide Drain;
    var r1 := r.(acks := r.acks + [Ack(q.sn, q.ts)], buf := [q]);
    DrainsOne(r1, r1.(buf := [], queue := r.queue + [q], nxt := r.nxt + 1));
  }

  lemma {:induction false} DrainsOne(r1: Receiver, r2: Receiver)
    requires |r1.buf| == 1 && r1.buf[0].sn == r1.nxt < 100 && |r1.queue| < 100
    requires r2 == r1.(buf := [], queue := r1.queue + [r1.buf[0]], nxt := r1.nxt + 1)
    ensures Drain(r1, WIDE.rcvWnd) == r2
  {
    assert r1.buf[1..] == [];
    assert Drain(r2, WIDE.rcvWnd) == r2;
  }

  /** The first segment again, after two: beyond half the ring before the window's end, it is ignored. */
  lemma {:induction false} FirstIgnored(k: Kcp, queue: seq<Packet>, q: Packet)
    requires ReceiverAt(k, queue, []) && |queue| == 2 && q.cmd == CMD_PUSH && q.una == 0 && q.wnd != 0 && q.sn == 0
    requires Parse(1, Encode(q)) == Parsed([q], 0) && |Encode(q)| >= OVERHEAD
    ensures ReceiverAt(Input(k, Encode(q)).0, queue, []) && !BeforeWindowEnd(k.rcv, 0, WIDE.rcvWnd)
  {
    hide Input, Encode, Parse;
    PushArrives(k, queue, [], q);
  }

  /** The receiving endpoint's acknowledgements leave, and it has nothing else to say. */
  lemma {:induction false} AcksLeave(k: Kcp, queue: seq<Packet>, acks: seq<Ack>)
    requires ReceiverAt(k, queue, acks) && Stocked(k.cfg, k.snd)
    ensures ReceiverAt(Flush(k).0, queue, [])
    ensures |ProbePackets(ProbeTimer(k.ctl), k.rcv.acks, StampOf(k))| == 0 &&
            |DataPackets(Promoted(k).buf, PolicyOf(k))| == 0
  {
    assert Promoted(k) == k.snd;
    assert XmitAll([], PolicyOf(k)) == [];
  }

  // ----- the run -----

  /** A run so far, and the pair it leads to. */
  predicate Reached(start: Pair, steps: seq<Step>, p: Pair) {
    Start(start) && Ready2(start) && Legal(start, steps) && Run(start, steps) == p
  }

  lemma {:induction false} OneMore(start: Pair, steps: seq<Step>, p: Pair, e: Step)
    requires Reached(start, steps, p) && Ready2(p) && Enabled(p, e)
    ensures Reached(start, steps + [e], Do(p, e))
    decreases |steps|
  {
    MoreSteps(start, steps, e);
  }

  lemma {:induction false} MoreSteps(p: Pair, steps: seq<Step>, e: Step)
    requires Ready2(p) && Legal(p, steps) && Enabled(Run(p, steps), e)
    ensures Legal(p, steps + [e]) && Run(p, steps + [e]) == Do(Run(p, steps), e)
    decreases |steps|
  {
    if steps == [] {
      assert [] + [e] == [e] && [e][1..] == [];
    } else {
      assert (steps + [e])[1..] == steps[1..] + [e];
      MoreSteps(Do(p, steps[0]), steps[1..], e);
    }
  }

  /** The run with one more step. */
  lemma {:induction false} AndThen(start: Pair, steps: seq<Step>, p: Pair, e: Step)
    returns (steps': seq<Step>, p': Pair)
    requires Reached(start, steps, p) && Ready2(p) && Enabled(p, e)
    ensures p' == Do(p, e) && Reached(start, steps', p') && Ready2(p')
  {
    OneMore(start, steps, p, e);
    steps', p' := steps + [e], Do(p, e);
  }

  /** Neither timer nor skipped acknowledgements make a segment due. */
  predicate Waiting(buf: seq<Seg>, now: u32) {
    forall i :: 0 <= i < |buf| ==> buf[i].xmit > 0 && Diff(now, buf[i].resendts) < 0 && buf[i].fastack == 0
  }

  /** A segment is on the wire, and read as what it is. */
  predicate Emitted(p: Peer, q: Packet) {
    Encode(q) in p.wire && Parse(1, Encode(q)) == Parsed([q], 0) && |Encode(q)| >= OVERHEAD
  }

  lemma {:induction false} StillEmitted(p: Peer, p': Peer, q: Packet)
    requires Emitted(p, q) && p.wire <= p'.wire
    ensures Emitted(p', q)
  {
  }

  /** A message is submitted and flushed. */
  lemma {:induction false} SendMessage(start: Pair, steps: seq<Step>, p: Pair, now: u32, buf: seq<Seg>, f: Frag)
    returns (steps': seq<Step>, p': Pair)
    requires Reached(start, steps, p) && Ready2(p) && SenderAt(p.a.k, now, [], buf)
    requires |f.data| == 1 && f.frg == 0 && |buf| < 100 && now < 5000 && Waiting(buf, now)
    ensures Reached(start, steps', p') && Ready2(p') && p'.b == p.b && p'.a.sent == p.a.sent + [f.data]
    ensures SenderAt(p'.a.k, now, [], buf + [Sent(|buf|, now, f)])
    ensures p.a.wire <= p'.a.wire && Emitted(p'.a, Wire(|buf|, now, f))
  {
    hide Reached, Flush, FlushPackets, Encode, Parse, Stocked, Inv, Promoted, AllSized, Send;
    Submitted(p.a.k, now, buf, f);
    var p1;
    steps', p1 := AndThen(start, steps, p, AtA(Submit(f.data)));
    forall i | 0 <= i < |buf| ensures Why(buf[i], PolicyOf(p1.a.k)) == Idle {
    }
    SendsNext(p1.a.k, now, buf, f);
    OneDatagram(p1.a.k, Wire(|buf|, now, f));
    steps', p' := AndThen(start, steps', p1, AtA(Push));
    assert Encode(Wire(|buf|, now, f)) in ToSet([Encode(Wire(|buf|, now, f))]);
  }

  lemma {:induction false} Wait(start: Pair, steps: seq<Step>, p: Pair, now: u32, buf: seq<Seg>, later: u32)
    returns (steps': seq<Step>, p': Pair)
    requires Reached(start, steps, p) && Ready2(p) && SenderAt(p.a.k, now, [], buf) && later < 5000
    ensures Reached(start, steps', p') && Ready2(p') && p'.b == p.b && p'.a.sent == p.a.sent && p'.a.wire == p.a.wire
    ensures SenderAt(p'.a.k, later, [], buf)
  {
    hide Reached, Update, Inv, AllSized, SenderAt;
    Later(p.a.k, now, [], buf, later);
    steps', p' := AndThen(start, steps, p, AtA(Clock(later)));
    assert ToSet([]) == {};
  }

  /** A segment of the wire arrives, the next in order. */
  lemma {:induction false} Receive(start: Pair, steps: seq<Step>, p: Pair, queue: seq<Packet>, acks: seq<Ack>,
                                   q: Packet)
    returns (steps': seq<Step>, p': Pair)
    requires Reached(start, steps, p) && Ready2(p) && ReceiverAt(p.b.k, queue, acks) && Emitted(p.a, q)
    requires q.cmd == CMD_PUSH && q.una == 0 && q.wnd != 0 && q.sn == |queue| < 100
    ensures Reached(start, steps', p') && Ready2(p') && p'.a == p.a && p'.b.sent == p.b.sent
    ensures ReceiverAt(p'.b.k, queue + [q], acks + [Ack(q.sn, q.ts)])
  {
    hide Reached, Input, Encode, Parse, Inv, AllSized, ReceiverAt;
    NextArrives(p.b.k, queue, acks, q);
    steps', p' := AndThen(start, steps, p, AtB(Arrive(Encode(q))));
  }

  lemma {:induction false} NothingYet() returns (start: Pair)
    ensures Ready2(start) && Reached(start, [], start) && start == Pair(Fresh(WIDE), Fresh(WIDE))
  {
    start := Pair(Fresh(WIDE), Fresh(WIDE));
    StartFlows(start);
  }

  /** Both endpoints begin. */
  lemma {:induction false} Beginning() returns (start: Pair, steps: seq<Step>, p: Pair)
    ensures Reached(start, steps, p) && Ready2(p) && p.a.sent == [] && p.b.sent == []
    ensures SenderAt(p.a.k, 0, [], []) && ReceiverAt(p.b.k, [], [])
  {
    hide Update, SenderAt, ReceiverAt, AllSized, Reached, Inv, Stocked;
    start := NothingYet();
    Begins(start.a.k);
    steps, p := AndThen(start, [], start, AtA(Clock(0)));
    steps, p := AndThen(start, steps, p, AtB(Clock(0)));
  }

  /** The first endpoint sends one segment at time 0 and another at time 100, and waits until 250; both arrive, and both
      acknowledgements are lost. */
  lemma {:induction false} BothReceived() returns (start: Pair, steps: seq<Step>, p: Pair)
    ensures Reached(start, steps, p) && Ready2(p) && p.a.sent == [FIRST.data, SECOND.data] && p.b.sent == []
    ensures SenderAt(p.a.k, 250, [], [Sent(0, 0, FIRST), Sent(1, 100, SECOND)])
    ensures ReceiverAt(p.b.k, [Wire(0, 0, FIRST), Wire(1, 100, SECOND)], [])
  {
    hide Reached, SenderAt, ReceiverAt, Emitted, AllSized, Inv, Stocked;
    start, steps, p := Beginning();
    steps, p := SendMessage(start, steps, p, 0, [], FIRST);
    var first := p;
    var buf := [] + [Sent(0, 0, FIRST)];
    steps, p := Wait(start, steps, p, 0, buf, 100);
    StillEmitted(first.a, p.a, Wire(0, 0, FIRST));
    var before := p;
    steps, p := SendMessage(start, steps, p, 100, buf, SECOND);
    StillEmitted(before.a, p.a, Wire(0, 0, FIRST));
    var between := p;
    steps, p := Wait(start, steps, p, 100, buf + [Sent(1, 100, SECOND)], 250);
    StillEmitted(between.a, p.a, Wire(0, 0, FIRST));
    StillEmitted(between.a, p.a, Wire(1, 100, SECOND));
    steps, p := Receive(start, steps, p, [], [], Wire(0, 0, FIRST));
    var queue, acks := [] + [Wire(0, 0, FIRST)], [] + [Ack(0, 0)];
    steps, p := Receive(start, steps, p, queue, acks, Wire(1, 100, SECOND));
    AcksLeave(p.b.k, queue + [Wire(1, 100, SECOND)], acks + [Ack(1, 100)]);
    assert buf + [Sent(1, 100, SECOND)] == [Sent(0, 0, FIRST), Sent(1, 100, SECOND)];
    assert queue + [Wire(1, 100, SECOND)] == [Wire(0, 0, FIRST), Wire(1, 100, SECOND)];
    steps, p := AndThen(start, steps, p, AtB(Push));
  }

  lemma {:induction false} ShortLogs(p: Pair)
    requires Ready2(p) && p.a.k.cfg == WIDE && p.b.k.cfg == WIDE
    requires p.a.sent == [FIRST.data, SECOND.data] && p.b.sent == []
    ensures Short(p)
  {
    assert p.a.sent[..1] == [FIRST.data] && p.a.sent[..1][..0] == [];
    assert |Log(p.a.sent[..1], WIDE.Mss())| == 1;
    assert |Log(p.a.sent, WIDE.Mss())| == 2;
  }

  /** A reachable state, with the oldest segment due and a receiver that has room, from which a fair round brings
      nothing. */
  lemma {:induction false} StuckRound() returns (start: Pair, steps: seq<Step>)
    ensures Start(start) && Ready2(start) && Legal(start, steps) && Short(Run(start, steps)) &&
            RoundDue(Run(start, steps))
    ensures Round(Run(start, steps)).a.k.snd.una == Run(start, steps).a.k.snd.una
  {
    var p;
    start, steps, p := BothReceived();
    assert p == Run(start, steps);
    ShortLogs(p);
    NoAnswer(p);
    RoundAdvances(start, steps);
    StartFlows(start);
    RunKeepsFlows(start, steps);
    FlowAdvances(p);
  }

  lemma {:induction false} NoAnswer(p: Pair)
    requires Ready2(p) && SenderAt(p.a.k, 250, [], [Sent(0, 0, FIRST), Sent(1, 100, SECOND)])
    requires ReceiverAt(p.b.k, [Wire(0, 0, FIRST), Wire(1, 100, SECOND)], [])
    ensures RoundDue(p) && !Answers(p)
  {
    hide Parse, Encode, FlushPackets, Flush, Input, AllSized, Inv, Stocked;
    var q := Wire(0, 250, FIRST);
    RepeatsFirst(p.a.k);
    OneDatagram(p.a.k, q);
    FirstIgnored(p.b.k, p.b.k.rcv.queue, q);
    var b1 := Act(p.b, Arrive(Encode(q)));
    assert [Encode(q)][1..] == [];
    assert Deliver(p.b, [Encode(q)]) == Deliver(b1, []) == b1;
    AcksLeave(b1.k, p.b.k.rcv.queue, []);
  }
}
