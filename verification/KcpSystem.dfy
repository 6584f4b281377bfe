/** Two endpoints over a network that loses, duplicates and reorders datagrams, but does not forge them. */
module KcpSystem {
  import opened Basics
  import opened KcpWire
  import opened KcpSpec
  import opened KcpWindow
  import opened KcpDatagram
  import opened KcpMessages

  /** An endpoint with its history: the messages accepted and delivered, and every datagram it ever emitted. */
  datatype Peer = Peer(k: Kcp, sent: seq<seq<byte>>, got: seq<seq<byte>>, wire: set<seq<byte>>)

  /** The calls of the interface; the network decides which datagrams reach `Arrive`, when and how often. */
  datatype Event = Submit(buffer: seq<byte>) | Take(len: int) | Arrive(d: seq<byte>) | Clock(now: u32) | Push

  predicate Ready(p: Peer) {
    Inv(p.k) && Stocked(p.k.cfg, p.k.snd) && AllSized(p.sent, p.k.cfg.Mss())
  }

  function ToSet(ds: seq<seq<byte>>): set<seq<byte>> {
    set d | d in ds
  }

  /** One call at an endpoint. */
  function Act(p: Peer, e: Event): (p': Peer)
    requires Ready(p)
    ensures Ready(p') && p'.k.cfg == p.k.cfg && p.sent <= p'.sent
  {
    match e
    case Submit(buffer) =>
      var (k, code) := Send(p.k, buffer, |buffer|);
      SubmitStocked(p.k, buffer);
      SendKeepsInv(p.k, buffer, |buffer|);
      assert buffer[..|buffer|] == buffer;
      p.(k := k, sent := if code == 0 then p.sent + [buffer] else p.sent)
    case Take(len) =>
      var (k, code, data) := Recv(p.k, len);
      RecvKeepsInv(p.k, len);
      p.(k := k, got := if code >= 0 && len >= 0 then p.got + [data] else p.got)
    case Arrive(d) =>
      InputKeepsInv(p.k, d);
      InputStocked(p.k, d);
      p.(k := Input(p.k, d).0)
    case Clock(now) =>
      UpdateKeepsInv(p.k, now);
      UpdateStocked(p.k, now);
      var (k, ds) := Update(p.k, now);
      p.(k := k, wire := p.wire + ToSet(ds))
    case Push =>
      FlushKeepsInv(p.k);
      FlushStocked(p.k);
      var (k, ds) := Flush(p.k);
      p.(k := k, wire := p.wire + ToSet(ds))
  }

  // ----- payload sizes survive every call -----

  lemma {:induction false} SubmitStocked(k: Kcp, buffer: seq<byte>)
    requires k.cfg.Valid() && Stocked(k.cfg, k.snd)
    ensures Stocked(k.cfg, Send(k, buffer, |buffer|).0.snd)
    ensures Send(k, buffer, |buffer|).1 == 0 <==> Sized(buffer, k.cfg.Mss())
  {
    assert buffer[..|buffer|] == buffer;
    if Sized(buffer, k.cfg.Mss()) {
      PiecesAre(buffer, k.cfg.Mss());
    }
  }

  lemma {:induction false} SenderStocked(cfg: Config, s: Sender, una: u32, sn: u32)
    requires Stocked(cfg, s)
    ensures Stocked(cfg, TakeUna(s, una)) && Stocked(cfg, TakeAck(s, sn)) && Stocked(cfg, TakeFastack(s, sn))
  {
    var n := DropUnaIsTail(s.buf, una);
    var m := RemoveAckIsCut(s.buf, sn);
    CountSkipsKeepsPackets(s.buf, sn);
    assert forall i :: 0 <= i < |s.buf| ==> StockedSeg(cfg, s.buf[i]);
    var skips := CountSkips(s.buf, sn);
    forall i | 0 <= i < |skips| ensures StockedSeg(cfg, skips[i]) {
      assert StockedSeg(cfg, s.buf[i]);
    }
  }

  lemma {:induction false} TakeAllStocked(st: Scan, ps: seq<Packet>)
    requires Stocked(st.k.cfg, st.k.snd)
    ensures Stocked(st.k.cfg, TakeAll(st, ps).k.snd)
    decreases |ps|
  {
    if ps != [] {
      SenderStocked(st.k.cfg, st.k.snd, ps[0].una, ps[0].sn);
      SenderStocked(st.k.cfg, TakeUna(st.k.snd, ps[0].una), ps[0].una, ps[0].sn);
      TakeAllStocked(KcpSpec.Take(st, ps[0]), ps[1..]);
    }
  }

  lemma {:induction false} InputStocked(k: Kcp, d: seq<byte>)
    requires k.cfg.Valid() && Stocked(k.cfg, k.snd)
    ensures Stocked(k.cfg, Input(k, d).0.snd) && Input(k, d).0.cfg == k.cfg
  {
    if |d| >= OVERHEAD {
      var ps := Parse(k.cfg.conv, d).packets;
      TakeAllKeepsConfig(Scan(k, false, 0), ps);
      TakeAllStocked(Scan(k, false, 0), ps);
      var st := TakeAll(Scan(k, false, 0), ps);
      SenderStocked(k.cfg, st.k.snd, 0, st.maxack);
    }
  }

  lemma {:induction false} FlushStocked(k: Kcp)
    requires k.cfg.Valid() && Stocked(k.cfg, k.snd)
    ensures Stocked(k.cfg, FlushState(k).snd)
  {
    PromoteStocked(k.cfg, k.snd, Window(k.cfg, k.ctl), k.ctl.rto, StampOf(k));
    var buf, p := Promoted(k).buf, PolicyOf(k);
    forall i | 0 <= i < |buf| ensures StockedSeg(k.cfg, XmitAll(buf, p)[i]) {
      assert StockedSeg(k.cfg, buf[i]);
    }
  }

  lemma {:induction false} UpdateStocked(k: Kcp, now: u32)
    requires k.cfg.Valid() && Stocked(k.cfg, k.snd)
    ensures Stocked(k.cfg, Update(k, now).0.snd) && Update(k, now).0.cfg == k.cfg
  {
    FlushStocked(k.(ctl := Tick(k.ctl, k.cfg.interval, now).0));
  }

  // ----- one direction of the conversation -----

  /** The receiver holds segment `sn`, or has passed it on. */
  predicate Has(r: Receiver, sn: u32) {
    sn < r.nxt || sn in Numbers(r.buf)
  }

  /** Packet `p`, numbered below `nxt`, carries the piece of that number. */
  predicate Matches(p: Packet, log: seq<Frag>, nxt: int) {
    p.sn < nxt <= |log| && FragOf(p) == log[p.sn]
  }

  predicate Sending(s: Sender, log: seq<Frag>) {
    && s.nxt <= |log| && s.queue == log[s.nxt..]
    && (forall i :: 0 <= i < |s.buf| ==> Matches(s.buf[i].pkt, log, s.nxt))
  }

  predicate Receiving(r: Receiver, log: seq<Frag>, base: nat, nxt: int) {
    && base <= r.nxt <= nxt <= |log| && FragsOf(r.queue) == log[base..r.nxt]
    && (forall i :: 0 <= i < |r.buf| ==> Matches(r.buf[i], log, nxt))
    && (forall i :: 0 <= i < |r.acks| ==> Has(r, r.acks[i].sn))
  }

  /** No numbered segment is lost: what the sender dropped, the receiver has. */
  predicate Accounted(s: Sender, r: Receiver) {
    forall sn: u32 :: sn < s.nxt ==> sn in SegNumbers(s.buf) || Has(r, sn)
  }

  /** What a data segment on the wire may claim. */
  predicate TrueData(p: Packet, log: seq<Frag>, nxt: int) {
    p.cmd == CMD_PUSH ==> Matches(p, log, nxt)
  }

  /** What a segment on the way back may acknowledge. */
  predicate TrueAck(p: Packet, r: Receiver) {
    p.una <= r.nxt && (p.cmd == CMD_ACK ==> Has(r, p.sn))
  }

  predicate AllTrueData(ps: seq<Packet>, log: seq<Frag>, nxt: int) {
    forall i :: 0 <= i < |ps| ==> TrueData(ps[i], log, nxt)
  }

  predicate AllTrueAck(ps: seq<Packet>, r: Receiver) {
    forall i :: 0 <= i < |ps| ==> TrueAck(ps[i], r)
  }

  /** Every datagram on the wire is whole and its data segments are true. */
  predicate DataWire(wire: set<seq<byte>>, conv: u32, log: seq<Frag>, nxt: int) {
    forall d :: d in wire ==> Parse(conv, d).code == 0 && AllTrueData(Parse(conv, d).packets, log, nxt)
  }

  predicate AckWire(wire: set<seq<byte>>, conv: u32, r: Receiver) {
    forall d :: d in wire ==> AllTrueAck(Parse(conv, d).packets, r)
  }

  /** The invariant of the flow of messages from `s` to `r`. */
  predicate Flow(s: Peer, r: Peer)
    requires Ready(s) && Ready(r)
  {
    var mss := s.k.cfg.Mss();
    && s.k.cfg.conv == r.k.cfg.conv
    && r.got <= s.sent && AllSized(r.got, mss)
    && |Log(s.sent, mss)| < HALF
    && Sending(s.k.snd, Log(s.sent, mss))
    && Receiving(r.k.rcv, Log(s.sent, mss), |Log(r.got, mss)|, s.k.snd.nxt)
    && Accounted(s.k.snd, r.k.rcv)
    && DataWire(s.wire, s.k.cfg.conv, Log(s.sent, mss), s.k.snd.nxt)
    && AckWire(r.wire, s.k.cfg.conv, r.k.rcv)
  }

  // ----- the sending side of a flow -----

  /** Cumulative acknowledgements remove only what the receiver has. */
  lemma {:induction false} TakeUnaAccounted(s: Sender, una: u32, r: Receiver, log: seq<Frag>)
    requires Sending(s, log) && |log| < HALF && Accounted(s, r) && una <= r.nxt <= s.nxt
    ensures Sending(TakeUna(s, una), log) && Accounted(TakeUna(s, una), r) && TakeUna(s, una).nxt == s.nxt
  {
    var n := DropUnaIsTail(s.buf, una);
    forall sn: u32 | sn < s.nxt ensures sn in SegNumbers(s.buf[n..]) || Has(r, sn) {
      if sn in SegNumbers(s.buf) {
        var i :| 0 <= i < |s.buf| && SegNumbers(s.buf)[i] == sn;
        assert Matches(s.buf[i].pkt, log, s.nxt);
        if i < n {
          assert Diff(una, sn) > 0;
        } else {
          assert SegNumbers(s.buf[n..])[i - n] == sn;
        }
      }
    }
  }

  /** Selective acknowledgements remove only what the receiver has. */
  lemma {:induction false} TakeAckAccounted(s: Sender, sn: u32, r: Receiver, log: seq<Frag>)
    requires Sending(s, log) && Accounted(s, r) && Has(r, sn)
    ensures Sending(TakeAck(s, sn), log) && Accounted(TakeAck(s, sn), r) && TakeAck(s, sn).nxt == s.nxt
  {
    if InFlight(s, sn) {
      var n := RemoveAckIsCut(s.buf, sn);
      if n < |s.buf| {
        var cut := s.buf[..n] + s.buf[n + 1..];
        forall x: u32 | x < s.nxt ensures x in SegNumbers(cut) || Has(r, x) {
          if x in SegNumbers(s.buf) && x != sn {
            var i :| 0 <= i < |s.buf| && SegNumbers(s.buf)[i] == x;
            assert SegNumbers(cut)[if i < n then i else i - 1] == x;
          }
        }
      }
    }
  }

  lemma {:induction false} TakeFastackAccounted(s: Sender, sn: u32, r: Receiver, log: seq<Frag>)
    requires Sending(s, log) && Accounted(s, r)
    ensures Sending(TakeFastack(s, sn), log) && Accounted(TakeFastack(s, sn), r) && TakeFastack(s, sn).nxt == s.nxt
  {
    CountSkipsKeepsPackets(s.buf, sn);
    assert SegNumbers(CountSkips(s.buf, sn)) == SegNumbers(s.buf);
    var skips := CountSkips(s.buf, sn);
    forall i | 0 <= i < |skips| ensures Matches(skips[i].pkt, log, s.nxt) {
      assert Matches(s.buf[i].pkt, log, s.nxt);
    }
  }

  lemma {:induction false} TakeAllAccounted(st: Scan, ps: seq<Packet>, r: Receiver, log: seq<Frag>)
    requires Sending(st.k.snd, log) && |log| < HALF && Accounted(st.k.snd, r) && r.nxt <= st.k.snd.nxt
    requires AllTrueAck(ps, r)
    ensures var snd := TakeAll(st, ps).k.snd; Sending(snd, log) && Accounted(snd, r) && snd.nxt == st.k.snd.nxt
    decreases |ps|
  {
    if ps != [] {
      var p, st' := ps[0], KcpSpec.Take(st, ps[0]);
      assert TrueAck(p, r);
      TakeUnaAccounted(st.k.snd, p.una, r, log);
      if p.cmd == CMD_ACK {
        TakeAckAccounted(TakeUna(st.k.snd, p.una), p.sn, r, log);
      }
      TakeAllAccounted(st', ps[1..], r, log);
    }
  }

  lemma {:induction false} InputAccounted(k: Kcp, d: seq<byte>, r: Receiver, log: seq<Frag>)
    requires k.cfg.Valid() && Sending(k.snd, log) && |log| < HALF && Accounted(k.snd, r) && r.nxt <= k.snd.nxt
    requires AllTrueAck(Parse(k.cfg.conv, d).packets, r)
    ensures var snd := Input(k, d).0.snd; Sending(snd, log) && Accounted(snd, r) && snd.nxt == k.snd.nxt
  {
    if |d| >= OVERHEAD {
      var ps := Parse(k.cfg.conv, d).packets;
      TakeAllAccounted(Scan(k, false, 0), ps, r, log);
      TakeAllKeepsConfig(Scan(k, false, 0), ps);
      var st := TakeAll(Scan(k, false, 0), ps);
      TakeFastackAccounted(st.k.snd, st.maxack, r, log);
    }
  }

  lemma {:induction false} PromoteAccounted(s: Sender, cwnd: u32, rto: u32, stamp: Stamp, r: Receiver, log: seq<Frag>)
    requires Sending(s, log) && |log| < HALF && Accounted(s, r)
    ensures var s' := Promote(s, cwnd, rto, stamp); Sending(s', log) && Accounted(s', r) && s.nxt <= s'.nxt
    decreases |s.queue|
  {
    if s.queue != [] && Diff(s.nxt, Add(s.una, cwnd)) < 0 {
      var g := Number(s.queue[0], s.nxt, rto, stamp);
      var s' := s.(queue := s.queue[1..], buf := s.buf + [g], nxt := Add(s.nxt, 1));
      assert SegNumbers(s'.buf) == SegNumbers(s.buf) + [s.nxt];
      forall i | 0 <= i < |s'.buf| ensures Matches(s'.buf[i].pkt, log, s'.nxt) {
        if i < |s.buf| {
          assert Matches(s.buf[i].pkt, log, s.nxt);
        }
      }
      PromoteAccounted(s', cwnd, rto, stamp, r, log);
    }
  }

  /** Flushing keeps the sender's account, and the data segments it emits are true. */
  lemma {:induction false} FlushAccounted(k: Kcp, r: Receiver, log: seq<Frag>)
    requires k.cfg.Valid() && Sending(k.snd, log) && |log| < HALF && Accounted(k.snd, r)
    ensures var snd := FlushState(k).snd; Sending(snd, log) && Accounted(snd, r) && k.snd.nxt <= snd.nxt
    ensures AllTrueData(FlushPackets(k), log, FlushState(k).snd.nxt)
  {
    PromoteAccounted(k.snd, Window(k.cfg, k.ctl), k.ctl.rto, StampOf(k), r, log);
    var s, p, ps := Promoted(k), PolicyOf(k), FlushPackets(k);
    XmitAllKeepsNumbers(s.buf, p);
    forall i | 0 <= i < |s.buf| ensures Matches(XmitAll(s.buf, p)[i].pkt, log, s.nxt) {
      assert Matches(s.buf[i].pkt, log, s.nxt);
    }
    DataPacketsAre(s.buf, p);
    forall i | 0 <= i < |ps| ensures TrueData(ps[i], log, s.nxt) {
      if ps[i] in DataPackets(s.buf, p) {
        var j :| 0 <= j < |s.buf| && Why(s.buf[j], p) != Idle && ps[i] == Xmit(s.buf[j], p).pkt;
        assert Matches(s.buf[j].pkt, log, s.nxt);
      }
    }
  }

  // ----- the receiving side of a flow -----

  /** A receiver that has moved on still has what it had. */
  predicate Extends(r: Receiver, r': Receiver) {
    r.nxt <= r'.nxt && forall sn: u32 :: Has(r, sn) ==> Has(r', sn)
  }

  lemma {:induction false} InsertHolds(buf: seq<Packet>, p: Packet)
    ensures forall sn: u32 :: sn in Numbers(Insert(buf, p)) <==> sn in Numbers(buf) || sn == p.sn
    ensures forall q :: q in Insert(buf, p) ==> q in buf || q == p
    decreases |buf|
  {
    if buf == [] {
      assert Numbers([p]) == [p.sn];
    } else {
      var init, last := buf[..|buf| - 1], buf[|buf| - 1];
      assert Numbers(buf) == Numbers(init) + [last.sn];
      if last.sn != p.sn {
        if Diff(p.sn, last.sn) > 0 {
          assert Numbers(buf + [p]) == Numbers(buf) + [p.sn];
        } else {
          InsertHolds(init, p);
          assert Numbers(Insert(init, p) + [last]) == Numbers(Insert(init, p)) + [last.sn];
        }
      }
    }
  }

  lemma {:induction false} DrainReceiving(r: Receiver, wnd: u32, log: seq<Frag>, base: nat, nxt: int)
    requires Receiving(r, log, base, nxt) && |log| < HALF
    ensures Receiving(Drain(r, wnd), log, base, nxt) && Extends(r, Drain(r, wnd))
    decreases |r.buf|
  {
    if r.buf != [] && r.buf[0].sn == r.nxt && |r.queue| < wnd {
      var r' := r.(buf := r.buf[1..], queue := r.queue + [r.buf[0]], nxt := Add(r.nxt, 1));
      assert Matches(r.buf[0], log, nxt);
      assert Numbers(r.buf) == [r.nxt] + Numbers(r'.buf);
      assert FragsOf(r'.queue) == FragsOf(r.queue) + [FragOf(r.buf[0])];
      assert log[base..r'.nxt] == log[base..r.nxt] + [log[r.nxt]];
      assert Extends(r, r');
      DrainReceiving(r', wnd, log, base, nxt);
    }
  }

  lemma {:induction false} TakePushReceiving(r: Receiver, p: Packet, wnd: u32, log: seq<Frag>, base: nat, nxt: int)
    requires Receiving(r, log, base, nxt) && |log| < HALF && wnd < HALF && Matches(p, log, nxt)
    ensures Receiving(TakePush(r, p, wnd), log, base, nxt) && Extends(r, TakePush(r, p, wnd))
  {
    if Diff(p.sn, Add(r.nxt, wnd)) < 0 {
      if Diff(p.sn, r.nxt) >= 0 {
        InsertHolds(r.buf, p);
        var r' := r.(buf := Insert(r.buf, p), acks := r.acks + [Ack(p.sn, p.ts)]);
        forall i | 0 <= i < |r'.buf| ensures Matches(r'.buf[i], log, nxt) {
          assert r'.buf[i] in r'.buf;
        }
        forall i | 0 <= i < |r'.acks| ensures Has(r', r'.acks[i].sn) {
          assert i < |r.acks| ==> Has(r, r.acks[i].sn);
        }
        assert Extends(r, r');
        DrainReceiving(r', wnd, log, base, nxt);
      }
    }
  }

  lemma {:induction false} TakeAllReceiving(st: Scan, ps: seq<Packet>, log: seq<Frag>, base: nat, nxt: int)
    requires Receiving(st.k.rcv, log, base, nxt) && |log| < HALF && st.k.cfg.rcvWnd < HALF && AllTrueData(ps, log, nxt)
    ensures Receiving(TakeAll(st, ps).k.rcv, log, base, nxt) && Extends(st.k.rcv, TakeAll(st, ps).k.rcv)
    decreases |ps|
  {
    if ps != [] {
      assert TrueData(ps[0], log, nxt);
      var st' := KcpSpec.Take(st, ps[0]);
      if ps[0].cmd == CMD_PUSH {
        TakePushReceiving(st.k.rcv, ps[0], st.k.cfg.rcvWnd, log, base, nxt);
      }
      TakeAllReceiving(st', ps[1..], log, base, nxt);
    }
  }

  lemma {:induction false} InputReceiving(k: Kcp, d: seq<byte>, log: seq<Frag>, base: nat, nxt: int)
    requires k.cfg.Valid() && Receiving(k.rcv, log, base, nxt) && |log| < HALF
    requires AllTrueData(Parse(k.cfg.conv, d).packets, log, nxt)
    ensures Receiving(Input(k, d).0.rcv, log, base, nxt) && Extends(k.rcv, Input(k, d).0.rcv)
  {
    if |d| >= OVERHEAD {
      var ps := Parse(k.cfg.conv, d).packets;
      TakeAllReceiving(Scan(k, false, 0), ps, log, base, nxt);
      TakeAllKeepsConfig(Scan(k, false, 0), ps);
    }
  }

  /** A complete message at the front of the queue leaves it, and the queue goes on with what follows. */
  lemma {:induction false} TakeMessage(r: Receiver, sent: seq<seq<byte>>, got: seq<seq<byte>>, mss: u32, nxt: int)
    requires mss > 0 && AllSized(sent, mss) && got <= sent && AllSized(got, mss)
    requires Receiving(r, Log(sent, mss), |Log(got, mss)|, nxt) && PeekSize(r.queue) >= 0
    ensures var n := FragCount(r.queue);
      && |got| < |sent| && Merge(r.queue[..n]) == sent[|got|] && AllSized(got + [sent[|got|]], mss)
      && Receiving(r.(queue := r.queue[n..]), Log(sent, mss), |Log(got + [sent[|got|]], mss)|, nxt)
  {
    NextMessage(r.queue, got, sent, r.nxt, mss);
    var n := FragCount(r.queue);
    assert FragsOf(r.queue[n..]) == FragsOf(r.queue)[n..];
  }

  /** `ikcp_recv` hands out the next message sent, whole, or nothing at all. */
  lemma {:induction false} RecvReceiving(k: Kcp, len: int, sent: seq<seq<byte>>, got: seq<seq<byte>>, mss: u32,
                                         nxt: int)
    requires mss > 0 && AllSized(sent, mss) && got <= sent && AllSized(got, mss) && |Log(sent, mss)| < HALF
    requires Receiving(k.rcv, Log(sent, mss), |Log(got, mss)|, nxt)
    ensures Extends(k.rcv, Recv(k, len).0.rcv)
    ensures Recv(k, len).1 >= 0 ==> |got| < |sent| && Recv(k, len).2 == sent[|got|]
    ensures var got' := if Recv(k, len).1 >= 0 && len >= 0 then got + [Recv(k, len).2] else got;
      got' <= sent && AllSized(got', mss) && Receiving(Recv(k, len).0.rcv, Log(sent, mss), |Log(got', mss)|, nxt)
  {
    if Recv(k, len).1 >= 0 {
      TakeMessage(k.rcv, sent, got, mss, nxt);
      if len < 0 {
        DrainReceiving(k.rcv, k.cfg.rcvWnd, Log(sent, mss), |Log(got, mss)|, nxt);
      } else {
        var rest := k.rcv.(queue := k.rcv.queue[FragCount(k.rcv.queue)..]);
        DrainReceiving(rest, k.cfg.rcvWnd, Log(sent, mss), |Log(got + [sent[|got|]], mss)|, nxt);
        assert Extends(k.rcv, rest);
      }
    }
  }

  /** A flush acknowledges only what it has, and forgets its acknowledgements once emitted. */
  lemma {:induction false} FlushTrueAcks(k: Kcp, log: seq<Frag>, base: nat, nxt: int)
    requires k.cfg.Valid() && Stocked(k.cfg, k.snd) && Receiving(k.rcv, log, base, nxt)
    ensures AllTrueAck(FlushPackets(k), k.rcv)
    ensures Receiving(FlushState(k).rcv, log, base, nxt) && Extends(k.rcv, FlushState(k).rcv)
  {
    var s, p, ps := Promoted(k), PolicyOf(k), FlushPackets(k);
    var acks := AckPackets(k.rcv.acks, StampOf(k));
    PromoteStocked(k.cfg, k.snd, Window(k.cfg, k.ctl), k.ctl.rto, StampOf(k));
    DataPacketsAre(s.buf, p);
    forall i | 0 <= i < |ps| ensures TrueAck(ps[i], k.rcv) {
      if i < |acks| {
        assert Has(k.rcv, k.rcv.acks[i].sn);
      } else if ps[i] in DataPackets(s.buf, p) {
        var j :| 0 <= j < |s.buf| && Why(s.buf[j], p) != Idle && ps[i] == Xmit(s.buf[j], p).pkt;
        assert StockedSeg(k.cfg, s.buf[j]);
      }
    }
  }

  // ----- the wire -----

  lemma {:induction false} DataWireGrows(wire: set<seq<byte>>, conv: u32, log: seq<Frag>, nxt: int, log': seq<Frag>,
                                         nxt': int)
    requires DataWire(wire, conv, log, nxt) && log <= log' && nxt <= nxt' <= |log'|
    ensures DataWire(wire, conv, log', nxt')
  {
    forall d | d in wire ensures AllTrueData(Parse(conv, d).packets, log', nxt') {
      var ps := Parse(conv, d).packets;
      forall i | 0 <= i < |ps| ensures TrueData(ps[i], log', nxt') {
        assert TrueData(ps[i], log, nxt);
      }
    }
  }

  lemma {:induction false} AckWireGrows(wire: set<seq<byte>>, conv: u32, r: Receiver, r': Receiver)
    requires AckWire(wire, conv, r) && Extends(r, r')
    ensures AckWire(wire, conv, r')
  {
    forall d | d in wire ensures AllTrueAck(Parse(conv, d).packets, r') {
      var ps := Parse(conv, d).packets;
      forall i | 0 <= i < |ps| ensures TrueAck(ps[i], r') {
        assert TrueAck(ps[i], r);
      }
    }
  }

  /** A segment read from a run of datagrams is read from one of them, and the other way round. */
  lemma {:induction false} ParsedSomewhere(conv: u32, ds: seq<seq<byte>>, i: nat)
    requires i < |ds|
    ensures forall q :: q in Parse(conv, ds[i]).packets ==> q in ParseDatagrams(conv, ds)
    decreases |ds|
  {
    if i < |ds| - 1 {
      ParsedSomewhere(conv, ds[..|ds| - 1], i);
    }
  }

  /** The datagrams of a flush say what the segments of the flush say. */
  lemma {:induction false} FlushWire(k: Kcp, r: Receiver, log: seq<Frag>, nxt: int)
    requires k.cfg.Valid() && Stocked(k.cfg, k.snd)
    ensures AllTrueData(FlushPackets(k), log, nxt) ==> DataWire(ToSet(Flush(k).1), k.cfg.conv, log, nxt)
    ensures AllTrueAck(FlushPackets(k), r) ==> AckWire(ToSet(Flush(k).1), k.cfg.conv, r)
  {
    hide FlushPackets, Flush, Parse, TrueData, TrueAck, Stocked, ParseDatagrams;
    var conv, ds, all := k.cfg.conv, Flush(k).1, FlushPackets(k);
    FlushParsesBack(k);
    forall d | d in ToSet(ds)
      ensures Parse(conv, d).code == 0
      ensures AllTrueData(all, log, nxt) ==> AllTrueData(Parse(conv, d).packets, log, nxt)
      ensures AllTrueAck(all, r) ==> AllTrueAck(Parse(conv, d).packets, r)
    {
      var i :| 0 <= i < |ds| && ds[i] == d;
      assert Whole(conv, ds[i]);
      ParsedSomewhere(conv, ds, i);
      var ps := Parse(conv, d).packets;
      forall j | 0 <= j < |ps|
        ensures AllTrueData(all, log, nxt) ==> TrueData(ps[j], log, nxt)
        ensures AllTrueAck(all, r) ==> TrueAck(ps[j], r)
      {
        assert ps[j] in ParseDatagrams(conv, ds);
        assert ps[j] in all;
      }
    }
  }

  // ----- every call keeps the flow -----

  /** The parts of a flow the sender's calls can change. */
  lemma {:induction false} FlowFrom(s: Peer, r: Peer, s': Peer, emitted: set<seq<byte>>)
    requires Ready(s) && Ready(r) && Flow(s, r)
    requires Ready(s') && s'.k.cfg == s.k.cfg && s'.sent == s.sent && s.k.snd.nxt <= s'.k.snd.nxt
    requires s'.wire == s.wire + emitted
    requires var log := Log(s.sent, s.k.cfg.Mss());
      && Sending(s'.k.snd, log) && Accounted(s'.k.snd, r.k.rcv)
      && DataWire(emitted, s.k.cfg.conv, log, s'.k.snd.nxt)
    ensures Flow(s', r)
  {
    var log, nxt, nxt' := Log(s.sent, s.k.cfg.Mss()), s.k.snd.nxt, s'.k.snd.nxt;
    DataWireGrows(s.wire, s.k.cfg.conv, log, nxt, log, nxt');
    ReceivingGrows(r.k.rcv, log, |Log(r.got, s.k.cfg.Mss())|, nxt, log, nxt');
  }

  lemma {:induction false} SenderEmits(s: Peer, r: Peer)
    requires Ready(s) && Ready(r) && Flow(s, r) && s.k.ctl.updated
    ensures Flow(Act(s, Push), r)
  {
    hide FlushPackets, Parse, AppendAll, Handed, Settle, XmitAll, Promoted, Log;
    var log := Log(s.sent, s.k.cfg.Mss());
    FlushAccounted(s.k, r.k.rcv, log);
    FlushWire(s.k, r.k.rcv, log, FlushState(s.k).snd.nxt);
    FlowFrom(s, r, Act(s, Push), ToSet(Flush(s.k).1));
  }

  /** A flush by the sender of a flow. */
  lemma {:induction false} SenderFlush(s: Peer, r: Peer)
    requires Ready(s) && Ready(r) && Flow(s, r)
    ensures Flow(Act(s, Push), r)
  {
    if s.k.ctl.updated {
      SenderEmits(s, r);
    } else {
      assert Act(s, Push) == s;
    }
  }

  lemma {:induction false} ReceivingGrows(r: Receiver, log: seq<Frag>, base: nat, nxt: int, log': seq<Frag>, nxt': int)
    requires Receiving(r, log, base, nxt) && log <= log' && nxt <= nxt' <= |log'|
    ensures Receiving(r, log', base, nxt')
  {
    forall i | 0 <= i < |r.buf| ensures Matches(r.buf[i], log', nxt') {
      assert Matches(r.buf[i], log, nxt);
    }
    assert log'[base..r.nxt] == log[base..r.nxt];
  }

  /** The endpoint with its clock set, before the flush that may follow. */
  function Ticked(p: Peer, now: u32): Peer {
    p.(k := p.k.(ctl := Tick(p.k.ctl, p.k.cfg.interval, now).0))
  }

  /** An update is a clock change, followed by a flush when one is due. */
  lemma {:induction false} ClockIsTickThenPush(p: Peer, now: u32)
    requires Ready(p)
    ensures Ready(Ticked(p, now))
    ensures Act(p, Clock(now)) ==
      if Tick(p.k.ctl, p.k.cfg.interval, now).1 then Act(Ticked(p, now), Push) else Ticked(p, now)
  {
    TickedReady(p, now);
    assert p.wire + ToSet([]) == p.wire;
    hide Tick, Flush, Inv, Stocked, AllSized, ToSet;
  }

  lemma {:induction false} TickedReady(p: Peer, now: u32)
    requires Ready(p)
    ensures Ready(Ticked(p, now))
  {
    hide Tick;
  }

  /** The clock of the sender of a flow. */
  lemma {:induction false} SenderClock(s: Peer, r: Peer, now: u32)
    requires Ready(s) && Ready(r) && Flow(s, r)
    ensures Flow(Act(s, Clock(now)), r)
  {
    ClockIsTickThenPush(s, now);
    assert Flow(Ticked(s, now), r);
    SenderFlush(Ticked(s, now), r);
  }

  /** A message accepted by the sender of a flow. */
  lemma {:induction false} SenderSubmit(s: Peer, r: Peer, buffer: seq<byte>)
    requires Ready(s) && Ready(r) && Flow(s, r)
    requires |Log(Act(s, Submit(buffer)).sent, s.k.cfg.Mss())| < HALF
    ensures Flow(Act(s, Submit(buffer)), r)
  {
    var mss := s.k.cfg.Mss();
    var s', log, nxt := Act(s, Submit(buffer)), Log(s.sent, mss), s.k.snd.nxt;
    SubmitStocked(s.k, buffer);
    if Sized(buffer, mss) {
      var log' := Log(s'.sent, mss);
      Submits(s, buffer);
      hide Log, Sized, Stocked, Inv, Sending, Receiving, DataWire, AckWire, Pieces, Send;
      SendingMore(s.k.snd, log, Pieces(buffer, mss));
      DataWireGrows(s.wire, s.k.cfg.conv, log, nxt, log', nxt);
      ReceivingGrows(r.k.rcv, log, |Log(r.got, mss)|, nxt, log', nxt);
    }
  }

  /** What a submitted message does to the endpoint and to the log. */
  lemma {:induction false} Submits(s: Peer, buffer: seq<byte>)
    requires Ready(s) && Sized(buffer, s.k.cfg.Mss())
    ensures var mss, s' := s.k.cfg.Mss(), Act(s, Submit(buffer));
      && s' == s.(k := s.k.(snd := s.k.snd.(queue := s.k.snd.queue + Pieces(buffer, mss))), sent := s.sent + [buffer])
      && Log(s'.sent, mss) == Log(s.sent, mss) + Pieces(buffer, mss)
  {
    var s' := Act(s, Submit(buffer));
    SubmitStocked(s.k, buffer);
    assert buffer[..|buffer|] == buffer;
    assert (s.sent + [buffer])[..|s.sent|] == s.sent;
  }

  lemma {:induction false} SendingMore(s: Sender, log: seq<Frag>, fs: seq<Frag>)
    requires Sending(s, log)
    ensures Sending(s.(queue := s.queue + fs), log + fs)
  {
    assert (log + fs)[s.nxt..] == log[s.nxt..] + fs;
    forall i | 0 <= i < |s.buf| ensures Matches(s.buf[i].pkt, log + fs, s.nxt) {
      assert Matches(s.buf[i].pkt, log, s.nxt);
    }
  }

  /** A datagram of the receiver reaches the sender of a flow. */
  lemma {:induction false} SenderArrive(s: Peer, r: Peer, d: seq<byte>)
    requires Ready(s) && Ready(r) && Flow(s, r) && d in r.wire
    ensures Flow(Act(s, Arrive(d)), r)
  {
    InputAccounted(s.k, d, r.k.rcv, Log(s.sent, s.k.cfg.Mss()));
    FlowFrom(s, r, Act(s, Arrive(d)), {});
  }

  /** Receiving at the sender of a flow does not touch its sending half. */
  lemma {:induction false} SenderTake(s: Peer, r: Peer, len: int)
    requires Ready(s) && Ready(r) && Flow(s, r)
    ensures Flow(Act(s, Take(len)), r)
  {
    FlowFrom(s, r, Act(s, Take(len)), {});
  }

  /** Every call at the sender of a flow keeps it. */
  lemma {:induction false} SenderKeepsFlow(s: Peer, r: Peer, e: Event)
    requires Ready(s) && Ready(r) && Flow(s, r)
    requires e.Arrive? ==> e.d in r.wire
    requires |Log(Act(s, e).sent, s.k.cfg.Mss())| < HALF
    ensures Flow(Act(s, e), r)
  {
    match e
    case Submit(buffer) => SenderSubmit(s, r, buffer);
    case Take(len) => SenderTake(s, r, len);
    case Arrive(d) => SenderArrive(s, r, d);
    case Clock(now) => SenderClock(s, r, now);
    case Push => SenderFlush(s, r);
  }

  /** A flush by the receiver of a flow. */
  lemma {:induction false} ReceiverFlush(s: Peer, r: Peer)
    requires Ready(s) && Ready(r) && Flow(s, r)
    ensures Flow(s, Act(r, Push))
  {
    var mss := s.k.cfg.Mss();
    if r.k.ctl.updated {
      FlushTrueAcks(r.k, Log(s.sent, mss), |Log(r.got, mss)|, s.k.snd.nxt);
      var rcv' := FlushState(r.k).rcv;
      FlushWire(r.k, r.k.rcv, [], 0);
      AckWireGrows(r.wire + ToSet(Flush(r.k).1), r.k.cfg.conv, r.k.rcv, rcv');
      assert Accounted(s.k.snd, rcv');
    }
  }

  lemma {:induction false} ReceiverClock(s: Peer, r: Peer, now: u32)
    requires Ready(s) && Ready(r) && Flow(s, r)
    ensures Flow(s, Act(r, Clock(now)))
  {
    ClockIsTickThenPush(r, now);
    assert Flow(s, Ticked(r, now));
    ReceiverFlush(s, Ticked(r, now));
  }

  /** A message the receiver of a flow submits is none of the flow's. */
  lemma {:induction false} ReceiverSubmit(s: Peer, r: Peer, buffer: seq<byte>)
    requires Ready(s) && Ready(r) && Flow(s, r)
    ensures Flow(s, Act(r, Submit(buffer)))
  {
    hide Log, Sized, Stocked, Inv, Sending, Receiving, DataWire, AckWire, Accounted, Pieces, AllSized;
  }

  /** A message taken by the receiver of a flow, or looked at. */
  lemma {:induction false} ReceiverTake(s: Peer, r: Peer, len: int)
    requires Ready(s) && Ready(r) && Flow(s, r)
    ensures Flow(s, Act(r, Take(len)))
  {
    var mss := s.k.cfg.Mss();
    var rcv := Recv(r.k, len).0.rcv;
    RecvReceiving(r.k, len, s.sent, r.got, mss, s.k.snd.nxt);
    AckWireGrows(r.wire, r.k.cfg.conv, r.k.rcv, rcv);
    ExtendsAccounted(s.k.snd, r.k.rcv, rcv);
    RecvIsReceivers(r.k, len);
    hide Recv, Log, AllSized, Stocked, Inv, Sending, Receiving, DataWire, AckWire, Accounted, Extends;
  }

  lemma {:induction false} RecvIsReceivers(k: Kcp, len: int)
    ensures Recv(k, len).0.snd == k.snd && Recv(k, len).0.cfg == k.cfg
  {
    hide Drain, Merge, PeekSize;
  }

  lemma {:induction false} ExtendsAccounted(s: Sender, r: Receiver, r': Receiver)
    requires Accounted(s, r) && Extends(r, r')
    ensures Accounted(s, r')
  {
  }

  /** Every call at the receiver of a flow keeps it. */
  lemma {:induction false} ReceiverKeepsFlow(s: Peer, r: Peer, e: Event)
    requires Ready(s) && Ready(r) && Flow(s, r)
    requires e.Arrive? ==> e.d in s.wire
    ensures Flow(s, Act(r, e))
  {
    var mss, nxt := s.k.cfg.Mss(), s.k.snd.nxt;
    var log, base := Log(s.sent, mss), |Log(r.got, mss)|;
    match e
    case Submit(buffer) => ReceiverSubmit(s, r, buffer);
    case Take(len) => ReceiverTake(s, r, len);
    case Arrive(d) =>
      InputReceiving(r.k, d, log, base, nxt);
      AckWireGrows(r.wire, r.k.cfg.conv, r.k.rcv, Act(r, e).k.rcv);
    case Clock(now) => ReceiverClock(s, r, now);
    case Push => ReceiverFlush(s, r);
  }

  // ----- runs of the whole system -----

  datatype Pair = Pair(a: Peer, b: Peer)

  datatype Step = AtA(e: Event) | AtB(e: Event)

  predicate Ready2(p: Pair) {
    Ready(p.a) && Ready(p.b)
  }

  /** A datagram arrives only if the other side emitted it at some time. */
  predicate Enabled(p: Pair, step: Step) {
    match step
    case AtA(e) => e.Arrive? ==> e.d in p.b.wire
    case AtB(e) => e.Arrive? ==> e.d in p.a.wire
  }

  function Do(p: Pair, step: Step): (p': Pair)
    requires Ready2(p)
    ensures Ready2(p')
  {
    match step
    case AtA(e) => p.(a := Act(p.a, e))
    case AtB(e) => p.(b := Act(p.b, e))
  }

  predicate Legal(p: Pair, steps: seq<Step>)
    requires Ready2(p)
    decreases |steps|
  {
    steps == [] || (Enabled(p, steps[0]) && Legal(Do(p, steps[0]), steps[1..]))
  }

  function Run(p: Pair, steps: seq<Step>): (p': Pair)
    requires Ready2(p)
    ensures Ready2(p')
    decreases |steps|
  {
    if steps == [] then p else Run(Do(p, steps[0]), steps[1..])
  }

  function Fresh(cfg: Config): Peer {
    Peer(Create(cfg), [], [], {})
  }

  /** Two new endpoints of one conversation; windows, mtu and timers may differ. */
  predicate Start(p: Pair) {
    && p.a == Fresh(p.a.k.cfg) && p.b == Fresh(p.b.k.cfg)
    && p.a.k.cfg.Valid() && p.b.k.cfg.Valid() && p.a.k.cfg.conv == p.b.k.cfg.conv
  }

  /** Fewer than 2^31 segments in each direction, so that no segment number is used twice. */
  predicate Short(p: Pair)
    requires Ready2(p)
  {
    |Log(p.a.sent, p.a.k.cfg.Mss())| < HALF && |Log(p.b.sent, p.b.k.cfg.Mss())| < HALF
  }

  predicate Flows(p: Pair)
    requires Ready2(p)
  {
    Flow(p.a, p.b) && Flow(p.b, p.a)
  }

  lemma {:induction false} RunExtends(p: Pair, steps: seq<Step>)
    requires Ready2(p)
    ensures var p' := Run(p, steps);
      p'.a.k.cfg == p.a.k.cfg && p'.b.k.cfg == p.b.k.cfg && p.a.sent <= p'.a.sent && p.b.sent <= p'.b.sent
    ensures Short(Run(p, steps)) ==> Short(p)
    decreases |steps|
  {
    if steps != [] {
      RunExtends(Do(p, steps[0]), steps[1..]);
    }
    var p' := Run(p, steps);
    LogOfPrefix(p.a.sent, p'.a.sent, p.a.k.cfg.Mss());
    LogOfPrefix(p.b.sent, p'.b.sent, p.b.k.cfg.Mss());
  }

  lemma {:induction false} RunKeepsFlows(p: Pair, steps: seq<Step>)
    requires Ready2(p) && Flows(p) && Legal(p, steps) && Short(Run(p, steps))
    ensures Flows(Run(p, steps))
    decreases |steps|
  {
    if steps != [] {
      var p' := Do(p, steps[0]);
      RunExtends(p', steps[1..]);
      match steps[0] {
        case AtA(e) =>
          SenderKeepsFlow(p.a, p.b, e);
          ReceiverKeepsFlow(p.b, p.a, e);
        case AtB(e) =>
          SenderKeepsFlow(p.b, p.a, e);
          ReceiverKeepsFlow(p.a, p.b, e);
      }
      RunKeepsFlows(p', steps[1..]);
    }
  }

  lemma {:induction false} StartFlows(p: Pair)
    requires Start(p)
    ensures Ready2(p) && Flows(p)
  {
    CreateHasInv(p.a.k.cfg);
    CreateHasInv(p.b.k.cfg);
  }

  /** End-to-end safety, both ways at once: at every moment of every run each side has received exactly a prefix of
      what the other side had accepted for sending. */
  lemma {:induction false} EndToEnd(p: Pair, steps: seq<Step>)
    requires Start(p)
    requires Ready2(p) && Legal(p, steps) && Short(Run(p, steps))
    ensures Run(p, steps).b.got <= Run(p, steps).a.sent
    ensures Run(p, steps).a.got <= Run(p, steps).b.sent
  {
    StartFlows(p);
    RunKeepsFlows(p, steps);
  }

  /** Conservation, both ways at once: along every run a numbered segment is still with its sender or has reached its
      receiver, and a sender never runs ahead of a receiver that has room. */
  lemma {:induction false} Conservation(p: Pair, steps: seq<Step>)
    requires Start(p)
    requires Ready2(p) && Legal(p, steps) && Short(Run(p, steps))
    ensures Conserved(Run(p, steps).a.k, Run(p, steps).b.k) && Conserved(Run(p, steps).b.k, Run(p, steps).a.k)
  {
    StartFlows(p);
    RunKeepsFlows(p, steps);
    UnaNotAhead(Run(p, steps).a, Run(p, steps).b);
    UnaNotAhead(Run(p, steps).b, Run(p, steps).a);
  }

  /** Nothing `s` has numbered is lost on the way to `r`. */
  predicate Conserved(s: Kcp, r: Kcp) {
    Accounted(s.snd, r.rcv) && (|r.rcv.queue| < r.cfg.rcvWnd ==> s.snd.una <= r.rcv.nxt)
  }

  lemma {:induction false} UnaNotAhead(s: Peer, r: Peer)
    requires Ready(s) && Ready(r) && Flow(s, r)
    ensures |r.k.rcv.queue| < r.k.cfg.rcvWnd ==> s.k.snd.una <= r.k.rcv.nxt
  {
    if |r.k.rcv.queue| < r.k.cfg.rcvWnd && r.k.rcv.nxt < s.k.snd.una {
      UnaInRange(s.k.snd, Log(s.sent, s.k.cfg.Mss()));
      BeforeUna(s.k.snd, s.k.cfg.sndWnd, r.k.rcv.nxt);
      NextNotBuffered(r.k.rcv, r.k.cfg.rcvWnd);
      assert false;
    }
  }

  lemma {:induction false} UnaInRange(s: Sender, log: seq<Frag>)
    requires Sending(s, log) && s.una == (if s.buf == [] then s.nxt else s.buf[0].pkt.sn)
    ensures s.una <= s.nxt
  {
    assert s.buf != [] ==> Matches(s.buf[0].pkt, log, s.nxt);
  }

  /** The sender holds nothing numbered before `una`. */
  lemma {:induction false} BeforeUna(s: Sender, wnd: u32, sn: u32)
    requires SenderInv(s, wnd) && sn < s.una <= s.nxt
    ensures sn !in SegNumbers(s.buf)
  {
    forall i | 0 <= i < |s.buf| ensures SegNumbers(s.buf)[i] != sn {
      assert Off(SegNumbers(s.buf)[i], s.una) < Off(s.nxt, s.una);
    }
  }

  /** A receiver with room does not hold back the segment it waits for. */
  lemma {:induction false} NextNotBuffered(r: Receiver, wnd: u32)
    requires ReceiverInv(r, wnd) && |r.queue| < wnd
    ensures !Has(r, r.nxt)
  {
    forall i | 0 <= i < |r.buf| ensures Numbers(r.buf)[i] != r.nxt {
      if i > 0 {
        assert Off(Numbers(r.buf)[0], r.nxt) < Off(Numbers(r.buf)[i], r.nxt);
      }
    }
  }
}
