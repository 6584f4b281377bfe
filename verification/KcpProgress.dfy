/** Exactly when a fair round advances the sender. */
module KcpProgress {
  import opened Basics
  import opened KcpWire
  import opened KcpSpec
  import opened KcpWindow
  import opened KcpDatagram
  import opened KcpMessages
  import opened KcpSystem

  // ----- what a run of datagrams does to the receiving side -----

  function PushAll(r: Receiver, ps: seq<Packet>, wnd: u32): Receiver
    decreases |ps|
  {
    if ps == [] then r
    else PushAll(if ps[0].cmd == CMD_PUSH then TakePush(r, ps[0], wnd) else r, ps[1..], wnd)
  }

  lemma {:induction false} TakeAllPushes(st: Scan, ps: seq<Packet>)
    ensures TakeAll(st, ps).k.rcv == PushAll(st.k.rcv, ps, st.k.cfg.rcvWnd)
    decreases |ps|
  {
    if ps != [] {
      TakeAllPushes(KcpSpec.Take(st, ps[0]), ps[1..]);
    }
  }

  lemma {:induction false} FinishInputIsSenders(st: Scan, una: u32)
    requires st.k.cfg.Valid()
    ensures var k := FinishInput(st, una); k.rcv == st.k.rcv && k.cfg == st.k.cfg && k.ctl.updated == st.k.ctl.updated
  {
  }

  lemma {:induction false} InputPushes(k: Kcp, d: seq<byte>)
    requires k.cfg.Valid()
    ensures Input(k, d).0.rcv == PushAll(k.rcv, Parse(k.cfg.conv, d).packets, k.cfg.rcvWnd)
    ensures Input(k, d).0.cfg == k.cfg && Input(k, d).0.ctl.updated == k.ctl.updated
  {
    var ps, st := Parse(k.cfg.conv, d).packets, Scan(k, false, 0);
    TakeAllPushes(st, ps);
    TakeAllKeepsConfig(st, ps);
    TakeAllKeepsUpdated(st, ps);
    if |d| >= OVERHEAD {
      FinishInputIsSenders(TakeAll(st, ps), k.snd.una);
    }
  }

  lemma {:induction false} TakeAllKeepsUpdated(st: Scan, ps: seq<Packet>)
    ensures TakeAll(st, ps).k.ctl.updated == st.k.ctl.updated
    decreases |ps|
  {
    if ps != [] {
      TakeAllKeepsUpdated(KcpSpec.Take(st, ps[0]), ps[1..]);
    }
  }

  lemma {:induction false} PushAllAppend(r: Receiver, ps: seq<Packet>, qs: seq<Packet>, wnd: u32)
    ensures PushAll(r, ps + qs, wnd) == PushAll(PushAll(r, ps, wnd), qs, wnd)
    decreases |ps|
  {
    if ps == [] {
      assert ps + qs == qs;
    } else {
      assert (ps + qs)[0] == ps[0] && (ps + qs)[1..] == ps[1..] + qs;
      PushAllAppend(if ps[0].cmd == CMD_PUSH then TakePush(r, ps[0], wnd) else r, ps[1..], qs, wnd);
    }
  }

  lemma {:induction false} PushAllSkips(r: Receiver, ps: seq<Packet>, wnd: u32)
    requires forall i :: 0 <= i < |ps| ==> ps[i].cmd != CMD_PUSH
    ensures PushAll(r, ps, wnd) == r
    decreases |ps|
  {
    if ps != [] {
      PushAllSkips(r, ps[1..], wnd);
    }
  }

  /** Later segments neither take anything back nor drop an acknowledgement that waits. */
  lemma {:induction false} PushAllGrows(r: Receiver, ps: seq<Packet>, wnd: u32, log: seq<Frag>, base: nat, nxt: int)
    requires Receiving(r, log, base, nxt) && |log| < HALF && wnd < HALF && AllTrueData(ps, log, nxt)
    ensures Extends(r, PushAll(r, ps, wnd)) && |r.acks| <= |PushAll(r, ps, wnd).acks|
    decreases |ps|
  {
    if ps != [] {
      assert TrueData(ps[0], log, nxt);
      if ps[0].cmd == CMD_PUSH {
        TakePushReceiving(r, ps[0], wnd, log, base, nxt);
        TakePushAcks(r, ps[0], wnd);
        PushAllGrows(TakePush(r, ps[0], wnd), ps[1..], wnd, log, base, nxt);
      } else {
        PushAllGrows(r, ps[1..], wnd, log, base, nxt);
      }
    }
  }

  /** The guard of the PUSH branch of `ikcp_input`: the segment lies before the window's end in serial order. */
  predicate BeforeWindowEnd(r: Receiver, sn: u32, wnd: u32) {
    Diff(sn, Add(r.nxt, wnd)) < 0
  }

  /** For a segment already received, the guard says how far it may lie behind. */
  lemma {:induction false} BehindWindow(r: Receiver, sn: u32, wnd: u32)
    requires sn <= r.nxt < HALF && 0 < wnd < HALF
    ensures BeforeWindowEnd(r, sn, wnd) <==> r.nxt - sn + wnd <= HALF
  {
  }

  /** A receiver ends up with something to acknowledge exactly when it had it before, or some segment passed the
      guard. */
  lemma {:induction false} PushAllAnswers(r: Receiver, ps: seq<Packet>, wnd: u32, log: seq<Frag>, base: nat, nxt: int)
    requires Receiving(r, log, base, nxt) && |log| < HALF && wnd < HALF && AllTrueData(ps, log, nxt)
    ensures |PushAll(r, ps, wnd).acks| > 0 <==> |r.acks| > 0 || SomeBefore(r, ps, wnd)
    decreases |ps|
  {
    if ps != [] {
      assert TrueData(ps[0], log, nxt);
      if ps[0].cmd == CMD_PUSH && BeforeWindowEnd(r, ps[0].sn, wnd) {
        TakePushReceiving(r, ps[0], wnd, log, base, nxt);
        TakePushAcks(r, ps[0], wnd);
        PushAllGrows(TakePush(r, ps[0], wnd), ps[1..], wnd, log, base, nxt);
      } else {
        PushAllAnswers(r, ps[1..], wnd, log, base, nxt);
        if SomeBefore(r, ps, wnd) {
          var i :| 0 <= i < |ps| && ps[i].cmd == CMD_PUSH && BeforeWindowEnd(r, ps[i].sn, wnd);
          assert ps[1..][i - 1] == ps[i];
        }
      }
    }
  }

  predicate SomeBefore(r: Receiver, ps: seq<Packet>, wnd: u32) {
    exists i :: 0 <= i < |ps| && ps[i].cmd == CMD_PUSH && BeforeWindowEnd(r, ps[i].sn, wnd)
  }

  lemma {:induction false} DrainKeepsAcks(r: Receiver, wnd: u32)
    ensures Drain(r, wnd).acks == r.acks
    decreases |r.buf|
  {
    if r.buf != [] && r.buf[0].sn == r.nxt && |r.queue| < wnd {
      DrainKeepsAcks(r.(buf := r.buf[1..], queue := r.queue + [r.buf[0]], nxt := Add(r.nxt, 1)), wnd);
    }
  }

  lemma {:induction false} TakePushAcks(r: Receiver, p: Packet, wnd: u32)
    ensures |r.acks| <= |TakePush(r, p, wnd).acks|
    ensures Diff(p.sn, Add(r.nxt, wnd)) < 0 ==> TakePush(r, p, wnd).acks != []
  {
    var acks := r.acks + [Ack(p.sn, p.ts)];
    DrainKeepsAcks(r.(acks := acks, buf := Insert(r.buf, p)), wnd);
  }

  /** The segment a receiver waits for goes to the front of its buffer. */
  lemma {:induction false} InsertFront(buf: seq<Packet>, p: Packet, span: int)
    requires Climbing(Numbers(buf), p.sn, span) && span <= HALF && p.sn !in Numbers(buf)
    ensures Insert(buf, p) == [p] + buf
    decreases |buf|
  {
    if buf != [] {
      var init, last := buf[..|buf| - 1], buf[|buf| - 1];
      assert Numbers(buf) == Numbers(init) + [last.sn];
      assert last.sn in Numbers(buf);
      assert Off(Numbers(buf)[|init|], p.sn) < span;
      DiffIsDistance(p.sn, last.sn, p.sn);
      forall i | 0 <= i < |init| ensures Numbers(init)[i] == Numbers(buf)[i] {
      }
      InsertFront(init, p, span);
      assert [p] + init + [last] == [p] + buf;
    }
  }

  /** The oldest unacknowledged segment, arriving at a receiver with room, is acknowledged and leaves `nxt` beyond
      it. */
  lemma {:induction false} HeadArrives(r: Receiver, p: Packet, wnd: u32, log: seq<Frag>, base: nat, nxt: int)
    requires ReceiverInv(r, wnd) && |r.queue| < wnd && 0 < wnd < HALF
    requires Receiving(r, log, base, nxt) && |log| < HALF && Matches(p, log, nxt)
    requires p.sn <= r.nxt && r.nxt - p.sn + wnd <= HALF
    ensures TakePush(r, p, wnd).nxt > p.sn && TakePush(r, p, wnd).acks != []
  {
    assert Diff(p.sn, Add(r.nxt, wnd)) < 0;
    TakePushAcks(r, p, wnd);
    TakePushReceiving(r, p, wnd, log, base, nxt);
    if p.sn == r.nxt {
      NextNotBuffered(r, wnd);
      InsertFront(r.buf, p, wnd);
      var r1 := r.(acks := r.acks + [Ack(p.sn, p.ts)], buf := [p] + r.buf);
      assert TakePush(r, p, wnd) == Drain(r1, wnd);
      var r2 := r1.(buf := r1.buf[1..], queue := r1.queue + [p], nxt := Add(r1.nxt, 1));
      assert Drain(r1, wnd) == Drain(r2, wnd);
      DrainAdvances(r2, wnd, nxt, log);
    }
  }

  lemma {:induction false} DrainAdvances(r: Receiver, wnd: u32, nxt: int, log: seq<Frag>)
    requires r.nxt <= nxt <= |log| < HALF && forall i :: 0 <= i < |r.buf| ==> Matches(r.buf[i], log, nxt)
    ensures r.nxt <= Drain(r, wnd).nxt
    decreases |r.buf|
  {
    if r.buf != [] && r.buf[0].sn == r.nxt && |r.queue| < wnd {
      assert Matches(r.buf[0], log, nxt);
      DrainAdvances(r.(buf := r.buf[1..], queue := r.queue + [r.buf[0]], nxt := Add(r.nxt, 1)), wnd, nxt, log);
    }
  }

  // ----- the flush that repeats the oldest segment -----

  /** The retransmission timer of the oldest segment has run out, or it was never sent. */
  predicate HeadDue(k: Kcp) {
    k.snd.buf != [] && (k.snd.buf[0].xmit == 0 || Diff(k.ctl.current, k.snd.buf[0].resendts) >= 0)
  }

  lemma {:induction false} PromoteKeepsHead(s: Sender, cwnd: u32, rto: u32, stamp: Stamp)
    ensures s.buf <= Promote(s, cwnd, rto, stamp).buf
    decreases |s.queue|
  {
    if s.queue != [] && Diff(s.nxt, Add(s.una, cwnd)) < 0 {
      PromoteKeepsHead(s.(queue := s.queue[1..], buf := s.buf + [Number(s.queue[0], s.nxt, rto, stamp)],
                          nxt := Add(s.nxt, 1)),
                       cwnd, rto, stamp);
    }
  }

  lemma {:induction false} FirstDataPacket(buf: seq<Seg>, p: Policy)
    requires buf != [] && Why(buf[0], p) != Idle
    ensures DataPackets(buf, p) != [] && DataPackets(buf, p)[0] == Xmit(buf[0], p).pkt
    decreases |buf|
  {
    if |buf| > 1 {
      FirstDataPacket(buf[..|buf| - 1], p);
    } else {
      assert buf[..0] == [];
      assert DataPackets(buf[..0], p) == [];
    }
  }

  /** A flush with the oldest segment due consists of control segments, that segment, and other data. */
  lemma {:induction false} FlushRepeatsHead(k: Kcp) returns (control: seq<Packet>, head: Packet, rest: seq<Packet>)
    requires k.cfg.Valid() && HeadDue(k) && Stocked(k.cfg, k.snd)
    ensures FlushPackets(k) == control + ([head] + rest)
    ensures forall i :: 0 <= i < |control| ==> control[i].cmd != CMD_PUSH
    ensures head.cmd == CMD_PUSH && head.sn == k.snd.buf[0].pkt.sn
  {
    var stamp, p, buf := StampOf(k), PolicyOf(k), Promoted(k).buf;
    PromoteKeepsHead(k.snd, Window(k.cfg, k.ctl), k.ctl.rto, stamp);
    assert buf[0] == k.snd.buf[0] && StockedSeg(k.cfg, k.snd.buf[0]);
    FirstDataPacket(buf, p);
    control := AckPackets(k.rcv.acks, stamp) + ProbePackets(ProbeTimer(k.ctl), k.rcv.acks, stamp);
    head := DataPackets(buf, p)[0];
    rest := DataPackets(buf, p)[1..];
    assert FlushPackets(k) == control + DataPackets(buf, p);
    assert DataPackets(buf, p) == [head] + rest;
  }

  // ----- what a run of datagrams does to the sending side -----

  /** In the range of numbers of one run, `una` never moves back. */
  lemma {:induction false} UnaOnlyGrows(s: Sender, wnd: u32, log: seq<Frag>, una: u32, sn: u32)
    requires SenderInv(s, wnd) && Sending(s, log) && |log| < HALF
    ensures s.una <= TakeUna(s, una).una && s.una <= TakeAck(s, sn).una && TakeFastack(s, sn).una == s.una
    ensures una <= s.nxt ==> una <= TakeUna(s, una).una
  {
    NumbersInRange(s, wnd, log);
    hide SenderInv, Sending, SegNumbers;
    HeadGrows(s, una);
    CutGrows(s, sn);
  }

  /** What is outstanding is numbered from `una` up to `nxt`. */
  lemma {:induction false} NumbersInRange(s: Sender, wnd: u32, log: seq<Frag>)
    requires SenderInv(s, wnd) && Sending(s, log) && |log| < HALF
    ensures s.una <= s.nxt < HALF && (s.buf == [] ==> s.una == s.nxt)
    ensures forall i :: 0 <= i < |s.buf| ==> s.una <= s.buf[i].pkt.sn < s.nxt
  {
    UnaInRange(s, log);
    forall i | 0 <= i < |s.buf| ensures s.una <= s.buf[i].pkt.sn < s.nxt {
      assert Off(SegNumbers(s.buf)[i], s.una) < Off(s.nxt, s.una);
      assert Matches(s.buf[i].pkt, log, s.nxt);
    }
  }

  lemma {:induction false} HeadGrows(s: Sender, una: u32)
    requires s.una <= s.nxt < HALF && (s.buf == [] ==> s.una == s.nxt)
    requires forall i :: 0 <= i < |s.buf| ==> s.una <= s.buf[i].pkt.sn < s.nxt
    ensures s.una <= TakeUna(s, una).una && (una <= s.nxt ==> una <= TakeUna(s, una).una)
  {
    var n := DropUnaIsTail(s.buf, una);
  }

  lemma {:induction false} CutGrows(s: Sender, sn: u32)
    requires s.una <= s.nxt && forall i :: 0 <= i < |s.buf| ==> s.una <= s.buf[i].pkt.sn < s.nxt
    ensures s.una <= TakeAck(s, sn).una && TakeFastack(s, sn).una == s.una
  {
    var m := RemoveAckIsCut(s.buf, sn);
  }

  lemma {:induction false} TakeAllAdvances(st: Scan, ps: seq<Packet>, r: Receiver, log: seq<Frag>, floor: u32)
    requires Inv(st.k) && Sending(st.k.snd, log) && |log| < HALF && Accounted(st.k.snd, r) && r.nxt <= st.k.snd.nxt
    requires AllTrueAck(ps, r)
    requires st.k.snd.una >= floor || (ps != [] && floor <= ps[0].una)
    ensures TakeAll(st, ps).k.snd.una >= floor
    decreases |ps|
  {
    if ps != [] {
      hide KcpSpec.Take, Inv, Sending, Accounted, TrueAck;
      assert TrueAck(ps[0], r);
      TakeAdvances(st, ps[0], r, log);
      TakeAllAdvances(KcpSpec.Take(st, ps[0]), ps[1..], r, log, floor);
    }
  }

  /** One segment moves `una` to what it acknowledges, or leaves it beyond. */
  lemma {:induction false} TakeAdvances(st: Scan, p: Packet, r: Receiver, log: seq<Frag>)
    requires Inv(st.k) && Sending(st.k.snd, log) && |log| < HALF && Accounted(st.k.snd, r) && r.nxt <= st.k.snd.nxt
    requires TrueAck(p, r)
    ensures var st' := KcpSpec.Take(st, p);
            && Inv(st'.k) && Sending(st'.k.snd, log) && Accounted(st'.k.snd, r) && r.nxt <= st'.k.snd.nxt
            && st.k.snd.una <= st'.k.snd.una && p.una <= st'.k.snd.una
  {
    hide Sending, Accounted, SenderInv, ReceiverInv, TakeUna, TakeAck, TakePush, TakeRtt;
    var s, wnd := st.k.snd, st.k.cfg.sndWnd;
    var s1 := TakeUna(s, p.una);
    UnaOnlyGrows(s, wnd, log, p.una, p.sn);
    TakeUnaKeeps(s, p.una, wnd);
    TakeUnaAccounted(s, p.una, r, log);
    if p.cmd == CMD_ACK {
      UnaOnlyGrows(s1, wnd, log, p.una, p.sn);
      TakeAckAccounted(s1, p.sn, r, log);
    }
    TakeKeepsInv(st, p);
  }

  /** A true datagram that cumulatively acknowledges up to `floor`, or any later one, leaves `una` there or beyond. */
  lemma {:induction false} ArrivalAdvances(s: Peer, r: Peer, d: seq<byte>, floor: u32)
    requires Ready(s) && Ready(r) && Flow(s, r) && d in r.wire
    requires var ps := Parse(s.k.cfg.conv, d).packets;
      s.k.snd.una >= floor || (ps != [] && floor <= ps[0].una)
    ensures Act(s, Arrive(d)).k.snd.una >= floor
  {
    var k, log := s.k, Log(s.sent, s.k.cfg.Mss());
    InputAdvances(k, d, r.k.rcv, log, floor);
  }

  lemma {:induction false} InputAdvances(k: Kcp, d: seq<byte>, r: Receiver, log: seq<Frag>, floor: u32)
    requires Inv(k) && Sending(k.snd, log) && |log| < HALF && Accounted(k.snd, r) && r.nxt <= k.snd.nxt
    requires var ps := Parse(k.cfg.conv, d).packets;
      AllTrueAck(ps, r) && (k.snd.una >= floor || (ps != [] && floor <= ps[0].una))
    ensures Input(k, d).0.snd.una >= floor
  {
    var ps, st := Parse(k.cfg.conv, d).packets, Scan(k, false, 0);
    TakeAllKeepsConfig(st, ps);
    if |d| >= OVERHEAD {
      TakeAllAdvances(st, ps, r, log, floor);
      assert FinishInput(TakeAll(st, ps), k.snd.una).snd.una == TakeAll(st, ps).k.snd.una;
    }
  }

  // ----- the round -----

  function Deliver(p: Peer, ds: seq<seq<byte>>): (p': Peer)
    requires Ready(p)
    ensures Ready(p') && p'.k.cfg == p.k.cfg
    decreases |ds|
  {
    if ds == [] then p else Deliver(Act(p, Arrive(ds[0])), ds[1..])
  }

  lemma {:induction false} ParseDatagramsLast(conv: u32, ds: seq<seq<byte>>, d: seq<byte>)
    ensures ParseDatagrams(conv, ds + [d]) == ParseDatagrams(conv, ds) + Parse(conv, d).packets
    ensures |ds| == 0 ==> ParseDatagrams(conv, ds) == []
  {
    hide Parse;
    assert (ds + [d])[..|ds|] == ds;
  }

  lemma {:induction false} ParseDatagramsHead(conv: u32, ds: seq<seq<byte>>)
    requires ds != []
    ensures ParseDatagrams(conv, ds) == Parse(conv, ds[0]).packets + ParseDatagrams(conv, ds[1..])
    decreases |ds|
  {
    hide Parse, ParseDatagrams;
    var init, last := ds[..|ds| - 1], ds[|ds| - 1];
    assert ds == init + [last];
    ParseDatagramsLast(conv, init, last);
    if |ds| > 1 {
      ParseDatagramsHead(conv, init);
      assert ds[1..] == init[1..] + [last];
      ParseDatagramsLast(conv, init[1..], last);
      Regroup(Parse(conv, ds[0]).packets, ParseDatagrams(conv, init[1..]), Parse(conv, last).packets);
    } else {
      ParseDatagramsLast(conv, ds[1..], last);
    }
  }

  lemma {:induction false} DeliverPushes(p: Peer, ds: seq<seq<byte>>)
    requires Ready(p)
    ensures Deliver(p, ds).k.rcv == PushAll(p.k.rcv, ParseDatagrams(p.k.cfg.conv, ds), p.k.cfg.rcvWnd)
    ensures Deliver(p, ds).k.ctl.updated == p.k.ctl.updated
    decreases |ds|
  {
    if ds != [] {
      var conv := p.k.cfg.conv;
      InputPushes(p.k, ds[0]);
      DeliverPushes(Act(p, Arrive(ds[0])), ds[1..]);
      ParseDatagramsHead(conv, ds);
      PushAllAppend(p.k.rcv, Parse(conv, ds[0]).packets, ParseDatagrams(conv, ds[1..]), p.k.cfg.rcvWnd);
    }
  }

  lemma {:induction false} DeliverKeepsFlow(s: Peer, r: Peer, ds: seq<seq<byte>>)
    requires Ready(s) && Ready(r) && Flow(s, r)
    requires forall i :: 0 <= i < |ds| ==> ds[i] in s.wire
    ensures Flow(s, Deliver(r, ds))
    decreases |ds|
  {
    if ds != [] {
      ReceiverKeepsFlow(s, r, Arrive(ds[0]));
      DeliverKeepsFlow(s, Act(r, Arrive(ds[0])), ds[1..]);
    }
  }

  lemma {:induction false} DeliverAdvances(s: Peer, r: Peer, ds: seq<seq<byte>>, floor: u32)
    requires Ready(s) && Ready(r) && Flow(s, r)
    requires forall i :: 0 <= i < |ds| ==> ds[i] in r.wire
    requires s.k.snd.una >= floor ||
             (ds != [] && var ps := Parse(s.k.cfg.conv, ds[0]).packets; ps != [] && floor <= ps[0].una)
    ensures Deliver(s, ds).k.snd.una >= floor
    decreases |ds|
  {
    if ds != [] {
      ArrivalAdvances(s, r, ds[0], floor);
      SenderArrive(s, r, ds[0]);
      DeliverAdvances(Act(s, Arrive(ds[0])), r, ds[1..], floor);
    }
  }

  lemma {:induction false} RestTrue(control: seq<Packet>, head: Packet, rest: seq<Packet>, log: seq<Frag>, nxt: int)
    requires AllTrueData(control + ([head] + rest), log, nxt)
    ensures TrueData(head, log, nxt) && AllTrueData(rest, log, nxt)
  {
    hide TrueData;
    var ps := control + ([head] + rest);
    assert ps[|control|] == head;
    forall i | 0 <= i < |rest| ensures TrueData(rest[i], log, nxt) {
      assert rest[i] == ps[|control| + 1 + i];
    }
  }

  /** The receiver's half of the round: after the sender's flush arrives, `nxt` is beyond the oldest segment and an
      acknowledgement waits to be sent. */
  lemma {:induction false} FirstHalf(s: Peer, r: Peer)
    requires Ready(s) && Ready(r) && Flow(s, r)
    requires s.k.ctl.updated && HeadDue(s.k)
    requires |r.k.rcv.queue| < r.k.cfg.rcvWnd && r.k.rcv.nxt - s.k.snd.una + r.k.cfg.rcvWnd <= HALF
    ensures var r2 := Deliver(r, Flush(s.k).1); r2.k.rcv.nxt > s.k.snd.una && r2.k.rcv.acks != []
  {
    var conv, wnd, rcv := r.k.cfg.conv, r.k.cfg.rcvWnd, r.k.rcv;
    var log, base, nxt := Log(s.sent, s.k.cfg.Mss()), |Log(r.got, s.k.cfg.Mss())|, FlushState(s.k).snd.nxt;
    FlushParsesBack(s.k);
    DeliverPushes(r, Flush(s.k).1);
    var control, head, rest := FlushRepeatsHead(s.k);
    PushAllAppend(rcv, control, [head] + rest, wnd);
    PushAllSkips(rcv, control, wnd);
    FlushAccounted(s.k, rcv, log);
    ReceivingGrows(rcv, log, base, s.k.snd.nxt, log, nxt);
    RestTrue(control, head, rest, log, nxt);
    UnaNotAhead(s, r);
    HeadArrives(rcv, head, wnd, log, base, nxt);
    TakePushReceiving(rcv, head, wnd, log, base, nxt);
    PushAllGrows(TakePush(rcv, head, wnd), rest, wnd, log, base, nxt);
    assert ([head] + rest)[1..] == rest;
  }

  /** What the receiver has after the sender's flush arrives: at least what it had, and something to acknowledge exactly
      when it had that before or some segment of the flush passes the guard. */
  lemma {:induction false} FlushAnswered(s: Peer, r: Peer)
    requires Ready(s) && Ready(r) && Flow(s, r) && s.k.ctl.updated
    ensures var r2 := Deliver(r, Flush(s.k).1).k.rcv;
            && r.k.rcv.nxt <= r2.nxt
            && (|r2.acks| > 0 <==> |r.k.rcv.acks| > 0 || SomeBefore(r.k.rcv, FlushPackets(s.k), r.k.cfg.rcvWnd))
  {
    var wnd, rcv, ps := r.k.cfg.rcvWnd, r.k.rcv, FlushPackets(s.k);
    var log, base, nxt := Log(s.sent, s.k.cfg.Mss()), |Log(r.got, s.k.cfg.Mss())|, FlushState(s.k).snd.nxt;
    FlushParsesBack(s.k);
    DeliverPushes(r, Flush(s.k).1);
    FlushAccounted(s.k, rcv, log);
    ReceivingGrows(rcv, log, base, s.k.snd.nxt, log, nxt);
    PushAllGrows(rcv, ps, wnd, log, base, nxt);
    PushAllAnswers(rcv, ps, wnd, log, base, nxt);
  }

  lemma {:induction false} DataCarriesUna(buf: seq<Seg>, p: Policy)
    ensures forall i :: 0 <= i < |DataPackets(buf, p)| ==> DataPackets(buf, p)[i].una == p.stamp.una
    decreases |buf|
  {
    if buf != [] {
      DataCarriesUna(buf[..|buf| - 1], p);
    }
  }

  lemma {:induction false} AllCarryNext(k: Kcp)
    ensures forall i :: 0 <= i < |FlushPackets(k)| ==> FlushPackets(k)[i].una == k.rcv.nxt
  {
    DataCarriesUna(Promoted(k).buf, PolicyOf(k));
    hide DataPackets, Promoted, ProbeTimer, Unused;
  }

  /** A flush with anything to send emits a datagram whose first segment carries `nxt`; otherwise it emits nothing. */
  lemma {:induction false} FlushCarriesNext(k: Kcp)
    requires k.cfg.Valid() && Stocked(k.cfg, k.snd) && k.ctl.updated
    ensures |Flush(k).1| > 0 <==> |FlushPackets(k)| > 0
    ensures |Flush(k).1| > 0 ==>
              |Parse(k.cfg.conv, Flush(k).1[0]).packets| > 0 &&
                Parse(k.cfg.conv, Flush(k).1[0]).packets[0].una == k.rcv.nxt
  {
    hide FlushPackets, Flush, Parse;
    var ds, conv, ps := Flush(k).1, k.cfg.conv, FlushPackets(k);
    FlushParsesBack(k);
    AllCarryNext(k);
    if |ds| > 0 {
      ParseDatagramsHead(conv, ds);
      assert Whole(conv, ds[0]) && 0 < |ds[0]|;
      assert |Parse(conv, ds[0]).packets| > 0;
      assert ps[0] == Parse(conv, ds[0]).packets[0];
    }
    assert |ds| == 0 ==> ParseDatagrams(conv, ds) == [];
  }

  lemma {:induction false} EmittedIsOnWire(p: Peer)
    requires Ready(p)
    ensures forall i :: 0 <= i < |Flush(p.k).1| ==> Flush(p.k).1[i] in Act(p, Push).wire
  {
    forall i | 0 <= i < |Flush(p.k).1| ensures Flush(p.k).1[i] in Act(p, Push).wire {
      assert Flush(p.k).1[i] in ToSet(Flush(p.k).1);
    }
  }

  /** The sender's half of the round: what arrives first takes `una` to the receiver's `nxt`. */
  lemma {:induction false} SecondHalf(s: Peer, r: Peer)
    requires Ready(s) && Ready(r) && Flow(s, r)
    requires r.k.ctl.updated && |FlushPackets(r.k)| > 0
    ensures Deliver(s, Flush(r.k).1).k.snd.una >= r.k.rcv.nxt
  {
    FlushCarriesNext(r.k);
    ReceiverFlush(s, r);
    EmittedIsOnWire(r);
    DeliverAdvances(s, Act(r, Push), Flush(r.k).1, r.k.rcv.nxt);
  }

  /** One fair round: the sender flushes, its datagrams arrive, the receiver flushes, its datagrams arrive. */
  function Round(p: Pair): Pair
    requires Ready2(p)
  {
    var a1, b1 := Act(p.a, Push), Deliver(p.b, Flush(p.a.k).1);
    var b2 := Act(b1, Push);
    Pair(Deliver(a1, Flush(b1.k).1), b2)
  }

  /** The sender's flush arrives, and the flow goes on. */
  lemma {:induction false} FlushArrives(s: Peer, r: Peer)
    requires Ready(s) && Ready(r) && Flow(s, r)
    ensures Flow(Act(s, Push), Deliver(r, Flush(s.k).1))
  {
    SenderFlush(s, r);
    EmittedIsOnWire(s);
    DeliverKeepsFlow(Act(s, Push), r, Flush(s.k).1);
  }

  /** The receiver once the sender's flush has arrived. */
  function Answering(p: Pair): Kcp
    requires Ready2(p)
  {
    Deliver(p.b, Flush(p.a.k).1).k
  }

  /** The receiver will send something back: it had acknowledgements waiting, or a segment of the flush passes the
      guard, or there are probes or data of its own. */
  predicate Answers(p: Pair)
    requires Ready2(p)
  {
    || |p.b.k.rcv.acks| > 0
    || SomeBefore(p.b.k.rcv, FlushPackets(p.a.k), p.b.k.cfg.rcvWnd)
    || |ProbePackets(ProbeTimer(Answering(p).ctl), Answering(p).rcv.acks, StampOf(Answering(p)))| > 0
    || |DataPackets(Promoted(Answering(p)).buf, PolicyOf(Answering(p)))| > 0
  }

  /** The sender has something due and the receiver has room. */
  predicate RoundDue(p: Pair) {
    && p.a.k.ctl.updated && p.b.k.ctl.updated && HeadDue(p.a.k)
    && |p.b.k.rcv.queue| < p.b.k.cfg.rcvWnd
  }

  lemma {:induction false} AnswersIsFlush(p: Pair)
    requires Ready2(p) && Flow(p.a, p.b) && p.a.k.ctl.updated
    ensures Answers(p) <==> |FlushPackets(Answering(p))| > 0
    ensures p.b.k.rcv.nxt <= Answering(p).rcv.nxt
  {
    FlushAnswered(p.a, p.b);
  }

  /** A head that passes the guard is answered. */
  lemma {:induction false} HeadAnswered(p: Pair)
    requires Ready2(p) && Flow(p.a, p.b) && RoundDue(p)
    requires BeforeWindowEnd(p.b.k.rcv, p.a.k.snd.una, p.b.k.cfg.rcvWnd)
    ensures SomeBefore(p.b.k.rcv, FlushPackets(p.a.k), p.b.k.cfg.rcvWnd)
  {
    var control, head, rest := FlushRepeatsHead(p.a.k);
    assert FlushPackets(p.a.k)[|control|] == head;
  }

  /** Progress of one flow: the round advances the sender exactly when the receiver answers. */
  lemma {:induction false} FlowAdvances(p: Pair)
    requires Ready2(p) && Flow(p.a, p.b) && RoundDue(p)
    ensures Answers(p) ==> Round(p).a.k.snd.una > p.a.k.snd.una
    ensures !Answers(p) ==> Round(p).a.k.snd.una == p.a.k.snd.una
    ensures p.b.k.rcv.nxt - p.a.k.snd.una + p.b.k.cfg.rcvWnd <= HALF ==> Answers(p)
  {
    hide FlushPackets, Flush, BeforeWindowEnd, SomeBefore, HeadDue, Flow, Stocked, AllSized, SenderInv, ReceiverInv;
    NextBeyondHead(p);
    AnswersIsFlush(p);
    FlushArrives(p.a, p.b);
    var b1 := Deliver(p.b, Flush(p.a.k).1);
    DeliverPushes(p.b, Flush(p.a.k).1);
    if Answers(p) {
      SecondHalf(Act(p.a, Push), b1);
    } else {
      SilentRound(p);
    }
  }

  /** Without an answer nothing comes back. */
  lemma {:induction false} SilentRound(p: Pair)
    requires Ready2(p) && Answering(p).ctl.updated && |FlushPackets(Answering(p))| == 0
    ensures Round(p).a.k.snd.una == p.a.k.snd.una
  {
    hide FlushPackets, Flush, AllSized, SenderInv, ReceiverInv;
    FlushCarriesNext(Answering(p));
    FlushKeepsUna(p.a.k);
    assert Flush(Answering(p)).1 == [];
  }

  /** Whether the head passes the guard or lies too far behind for it, an answer carries a number beyond it. */
  lemma {:induction false} NextBeyondHead(p: Pair)
    requires Ready2(p) && Flow(p.a, p.b) && RoundDue(p)
    ensures p.b.k.rcv.nxt - p.a.k.snd.una + p.b.k.cfg.rcvWnd <= HALF ==> Answers(p)
    ensures Answering(p).rcv.nxt > p.a.k.snd.una
  {
    AnswersIsFlush(p);
    UnaNotAhead(p.a, p.b);
    BehindWindow(p.b.k.rcv, p.a.k.snd.una, p.b.k.cfg.rcvWnd);
    if BeforeWindowEnd(p.b.k.rcv, p.a.k.snd.una, p.b.k.cfg.rcvWnd) {
      HeadAnswered(p);
      FirstHalf(p.a, p.b);
    }
  }

  lemma {:induction false} FlushKeepsUna(k: Kcp)
    requires k.cfg.Valid() && Stocked(k.cfg, k.snd)
    ensures Flush(k).0.snd.una == k.snd.una
  {
    PromoteKeepsUna(k.snd, Window(k.cfg, k.ctl), k.ctl.rto, StampOf(k));
  }

  lemma {:induction false} PromoteKeepsUna(s: Sender, cwnd: u32, rto: u32, stamp: Stamp)
    ensures Promote(s, cwnd, rto, stamp).una == s.una
    decreases |s.queue|
  {
    if s.queue != [] && Diff(s.nxt, Add(s.una, cwnd)) < 0 {
      PromoteKeepsUna(s.(queue := s.queue[1..], buf := s.buf + [Number(s.queue[0], s.nxt, rto, stamp)],
                         nxt := Add(s.nxt, 1)),
                      cwnd, rto, stamp);
    }
  }

  /** Progress, exactly: in every reachable state in which the oldest segment is due and the receiver has room, a fair
      round strictly advances the sender if and only if the receiver answers. It does whenever the window's end, seen
      from the oldest segment, is no further than half the word ring; beyond that the guard takes the segment for one
      from the future. */
  lemma {:induction false} RoundAdvances(start: Pair, steps: seq<Step>)
    requires Start(start)
    requires Ready2(start) && Legal(start, steps) && Short(Run(start, steps)) && RoundDue(Run(start, steps))
    ensures var p := Run(start, steps);
            && (Round(p).a.k.snd.una > p.a.k.snd.una <==> Answers(p))
            && (p.b.k.rcv.nxt - p.a.k.snd.una + p.b.k.cfg.rcvWnd <= HALF ==> Answers(p))
            && (BeforeWindowEnd(p.b.k.rcv, p.a.k.snd.una, p.b.k.cfg.rcvWnd) <==>
                p.b.k.rcv.nxt - p.a.k.snd.una + p.b.k.cfg.rcvWnd <= HALF)
  {
    StartFlows(start);
    RunKeepsFlows(start, steps);
    var p := Run(start, steps);
    FlowAdvances(p);
    UnaNotAhead(p.a, p.b);
    BehindWindow(p.b.k.rcv, p.a.k.snd.una, p.b.k.cfg.rcvWnd);
  }
}
