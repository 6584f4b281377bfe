/** The window invariants of one endpoint, for arbitrary input bytes and counters that wrap around. */
module KcpWindow {
  import opened Basics
  import opened KcpWire
  import opened KcpSpec

  function SegNumbers(buf: seq<Seg>): (sns: seq<u32>)
    ensures |sns| == |buf|
  {
    seq(|buf|, i requires 0 <= i < |buf| => buf[i].pkt.sn)
  }

  function Numbers(buf: seq<Packet>): (sns: seq<u32>)
    ensures |sns| == |buf|
  {
    seq(|buf|, i requires 0 <= i < |buf| => buf[i].sn)
  }

  /** Segment numbers that move strictly away from `base`, all within `span` of it. */
  predicate Climbing(sns: seq<u32>, base: u32, span: int) {
    && (forall i :: 0 <= i < |sns| ==> Off(sns[i], base) < span)
    && (forall i, j :: 0 <= i < j < |sns| ==> Off(sns[i], base) < Off(sns[j], base))
  }

  predicate SenderInv(s: Sender, wnd: u32) {
    && Climbing(SegNumbers(s.buf), s.una, Off(s.nxt, s.una))
    && Off(s.nxt, s.una) <= wnd
    && s.una == (if s.buf == [] then s.nxt else s.buf[0].pkt.sn)
  }

  predicate ReceiverInv(r: Receiver, wnd: u32) {
    && Climbing(Numbers(r.buf), r.nxt, wnd)
    && |r.queue| <= wnd
    && Settled(r, wnd)
  }

  /** Nothing that could be moved to the queue is left in the buffer. */
  predicate Settled(r: Receiver, wnd: u32) {
    r.buf != [] && r.buf[0].sn == r.nxt ==> |r.queue| >= wnd
  }

  /** What every call keeps, whatever bytes arrive. */
  predicate Inv(k: Kcp) {
    k.cfg.Valid() && SenderInv(k.snd, k.cfg.sndWnd) && ReceiverInv(k.rcv, k.cfg.rcvWnd)
  }

  /** The serial comparison is the comparison of distances, as long as these stay below half the ring. */
  lemma {:induction false} DiffIsDistance(a: u32, b: u32, base: u32)
    requires Off(a, base) < HALF && Off(b, base) < HALF
    ensures Diff(a, b) == Off(a, base) - Off(b, base)
  {
  }

  /** The reading of the invariant a caller sees: serial order, and both windows. */
  lemma {:induction false} WindowReading(k: Kcp)
    requires Inv(k)
    ensures forall i, j :: 0 <= i < j < |k.snd.buf| ==> Diff(k.snd.buf[j].pkt.sn, k.snd.buf[i].pkt.sn) > 0
    ensures forall i, j :: 0 <= i < j < |k.rcv.buf| ==> Diff(k.rcv.buf[j].sn, k.rcv.buf[i].sn) > 0
    ensures forall i :: 0 <= i < |k.snd.buf| ==>
      0 <= Diff(k.snd.buf[i].pkt.sn, k.snd.una) && Diff(k.snd.buf[i].pkt.sn, k.snd.nxt) < 0
    ensures forall i :: 0 <= i < |k.rcv.buf| ==>
      0 <= Diff(k.rcv.buf[i].sn, k.rcv.nxt) && Diff(k.rcv.buf[i].sn, Add(k.rcv.nxt, k.cfg.rcvWnd)) < 0
    ensures |k.snd.buf| <= k.cfg.sndWnd
  {
    var sns, rns := SegNumbers(k.snd.buf), Numbers(k.rcv.buf);
    forall i, j | 0 <= i < j < |k.snd.buf| ensures Diff(k.snd.buf[j].pkt.sn, k.snd.buf[i].pkt.sn) > 0 {
      DiffIsDistance(sns[j], sns[i], k.snd.una);
    }
    forall i, j | 0 <= i < j < |k.rcv.buf| ensures Diff(k.rcv.buf[j].sn, k.rcv.buf[i].sn) > 0 {
      DiffIsDistance(rns[j], rns[i], k.rcv.nxt);
    }
    forall i | 0 <= i < |k.rcv.buf|
      ensures 0 <= Diff(k.rcv.buf[i].sn, k.rcv.nxt) && Diff(k.rcv.buf[i].sn, Add(k.rcv.nxt, k.cfg.rcvWnd)) < 0
    {
      assert Off(rns[i], k.rcv.nxt) < k.cfg.rcvWnd;
    }
    forall i | 0 <= i < |k.snd.buf|
      ensures 0 <= Diff(k.snd.buf[i].pkt.sn, k.snd.una) && Diff(k.snd.buf[i].pkt.sn, k.snd.nxt) < 0
    {
      assert Off(sns[i], k.snd.una) < Off(k.snd.nxt, k.snd.una);
    }
    ClimbingIsShort(sns, k.snd.una, Off(k.snd.nxt, k.snd.una));
  }

  lemma {:induction false} ClimbingIsShort(sns: seq<u32>, base: u32, span: int)
    requires Climbing(sns, base, span) && span >= 0
    ensures |sns| <= span
  {
    if sns != [] {
      var last := |sns| - 1;
      ClimbingIsShort(sns[..last], base, Off(sns[last], base));
    }
  }

  // ----- sending side -----

  /** A tail of a climbing list climbs from its own head. */
  lemma {:induction false} Rebase(sns: seq<u32>, base: u32, n: nat, nxt: u32)
    requires Climbing(sns, base, Off(nxt, base)) && n < |sns|
    ensures Climbing(sns[n..], sns[n], Off(nxt, sns[n]))
    ensures Off(nxt, sns[n]) <= Off(nxt, base)
  {
    var head := sns[n];
    forall i | 0 <= i < |sns[n..]|
      ensures Off(sns[n..][i], head) == Off(sns[n + i], base) - Off(head, base)
    {
      assert Off(sns[n], base) <= Off(sns[n + i], base);
    }
    assert Off(nxt, head) == Off(nxt, base) - Off(head, base);
  }

  /** Dropping a head section and recomputing `una` keeps the sender in order. */
  lemma {:induction false} ShrinkTail(s: Sender, n: nat, wnd: u32)
    requires SenderInv(s, wnd) && n <= |s.buf|
    ensures SenderInv(Shrink(s.(buf := s.buf[n..])), wnd)
  {
    if n < |s.buf| {
      Rebase(SegNumbers(s.buf), s.una, n, s.nxt);
      assert SegNumbers(s.buf[n..]) == SegNumbers(s.buf)[n..];
    }
  }

  lemma {:induction false} DropUnaIsTail(buf: seq<Seg>, una: u32) returns (n: nat)
    ensures n <= |buf| && DropUna(buf, una) == buf[n..]
    ensures forall i :: 0 <= i < n ==> Diff(una, buf[i].pkt.sn) > 0
    ensures n < |buf| ==> Diff(una, buf[n].pkt.sn) <= 0
  {
    if buf == [] || Diff(una, buf[0].pkt.sn) <= 0 {
      n := 0;
    } else {
      var m := DropUnaIsTail(buf[1..], una);
      n := m + 1;
      forall i | 0 <= i < n ensures Diff(una, buf[i].pkt.sn) > 0 {
        if i > 0 {
          assert buf[i] == buf[1..][i - 1];
        }
      }
    }
  }

  lemma {:induction false} TakeUnaKeeps(s: Sender, una: u32, wnd: u32)
    requires SenderInv(s, wnd)
    ensures SenderInv(TakeUna(s, una), wnd)
  {
    var n := DropUnaIsTail(s.buf, una);
    ShrinkTail(s, n, wnd);
  }

  lemma {:induction false} RemoveAckIsCut(buf: seq<Seg>, sn: u32) returns (n: nat)
    ensures n <= |buf|
    ensures if n < |buf| then buf[n].pkt.sn == sn && RemoveAck(buf, sn) == buf[..n] + buf[n + 1..]
            else RemoveAck(buf, sn) == buf
  {
    if buf == [] || (sn != buf[0].pkt.sn && Diff(sn, buf[0].pkt.sn) < 0) {
      n := |buf|;
    } else if sn == buf[0].pkt.sn {
      n := 0;
    } else {
      var m := RemoveAckIsCut(buf[1..], sn);
      n := m + 1;
    }
  }

  lemma {:induction false} TakeAckKeeps(s: Sender, sn: u32, wnd: u32)
    requires SenderInv(s, wnd)
    ensures SenderInv(TakeAck(s, sn), wnd)
  {
    if InFlight(s, sn) {
      var n := RemoveAckIsCut(s.buf, sn);
      if n == 0 && n < |s.buf| {
        ShrinkTail(s, 1, wnd);
      } else if n < |s.buf| {
        var sns, cut := SegNumbers(s.buf), SegNumbers(s.buf[..n] + s.buf[n + 1..]);
        forall i | 0 <= i < |cut| ensures cut[i] == sns[if i < n then i else i + 1] {
        }
      }
    }
  }

  lemma {:induction false} CountSkipsKeepsPackets(buf: seq<Seg>, sn: u32)
    ensures |CountSkips(buf, sn)| == |buf|
    ensures forall i :: 0 <= i < |buf| ==> CountSkips(buf, sn)[i].pkt == buf[i].pkt
  {
    if buf != [] && Diff(sn, buf[0].pkt.sn) >= 0 {
      CountSkipsKeepsPackets(buf[1..], sn);
      forall i | 0 <= i < |buf| ensures CountSkips(buf, sn)[i].pkt == buf[i].pkt {
        if i > 0 {
          assert CountSkips(buf, sn)[i] == CountSkips(buf[1..], sn)[i - 1];
        }
      }
    }
  }

  lemma {:induction false} TakeFastackKeeps(s: Sender, sn: u32, wnd: u32)
    requires SenderInv(s, wnd)
    ensures SenderInv(TakeFastack(s, sn), wnd)
    ensures TakeFastack(s, sn).una == s.una
  {
    CountSkipsKeepsPackets(s.buf, sn);
    assert SegNumbers(CountSkips(s.buf, sn)) == SegNumbers(s.buf);
  }

  lemma {:induction false} PromoteKeeps(s: Sender, cwnd: u32, rto: u32, stamp: Stamp, wnd: u32)
    requires SenderInv(s, wnd) && cwnd <= wnd < HALF
    ensures SenderInv(Promote(s, cwnd, rto, stamp), wnd)
    decreases |s.queue|
  {
    if s.queue != [] && Diff(s.nxt, Add(s.una, cwnd)) < 0 {
      assert Off(s.nxt, s.una) < cwnd;
      var s' := s.(queue := s.queue[1..], buf := s.buf + [Number(s.queue[0], s.nxt, rto, stamp)], nxt := Add(s.nxt, 1));
      assert Off(s'.nxt, s.una) == Off(s.nxt, s.una) + 1;
      assert SegNumbers(s'.buf) == SegNumbers(s.buf) + [s.nxt];
      PromoteKeeps(s', cwnd, rto, stamp, wnd);
    }
  }

  lemma {:induction false} XmitAllKeepsNumbers(buf: seq<Seg>, p: Policy)
    ensures SegNumbers(XmitAll(buf, p)) == SegNumbers(buf)
  {
    assert forall i :: 0 <= i < |buf| ==> XmitAll(buf, p)[i].pkt.sn == buf[i].pkt.sn;
  }

  // ----- receiving side -----

  /** Inserting within the window: the list still climbs and holds exactly one more number, if new. */
  lemma {:induction false} ClimbsOn(buf: seq<Packet>, p: Packet, base: u32, span: int)
    requires Climbing(Numbers(buf), base, span) && Off(p.sn, base) < span
    requires forall i :: 0 <= i < |buf| ==> Off(Numbers(buf)[i], base) < Off(p.sn, base)
    ensures Climbing(Numbers(buf + [p]), base, span)
  {
    assert Numbers(buf + [p]) == Numbers(buf) + [p.sn];
  }

  lemma {:induction false} ClimbsHigher(sns: seq<u32>, base: u32, span: int, span': int)
    requires Climbing(sns, base, span) && span <= span'
    ensures Climbing(sns, base, span')
  {
  }

  lemma {:induction false} InsertClimbs(buf: seq<Packet>, p: Packet, base: u32, span: int)
    requires Climbing(Numbers(buf), base, span) && Off(p.sn, base) < span <= HALF
    ensures Climbing(Numbers(Insert(buf, p)), base, span)
    decreases |buf|
  {
    if buf != [] {
      var last, init := buf[|buf| - 1], buf[..|buf| - 1];
      assert last.sn == Numbers(buf)[|buf| - 1];
      DiffIsDistance(p.sn, last.sn, base);
      assert Numbers(init) == Numbers(buf)[..|buf| - 1];
      if last.sn == p.sn {
      } else if Diff(p.sn, last.sn) > 0 {
        ClimbsOn(buf, p, base, span);
      } else {
        var below := Off(last.sn, base);
        InsertClimbs(init, p, base, below);
        ClimbsHigher(Numbers(Insert(init, p)), base, below, span);
        ClimbsOn(Insert(init, p), last, base, span);
      }
    }
  }

  lemma {:induction false} DrainKeeps(r: Receiver, wnd: u32)
    requires Climbing(Numbers(r.buf), r.nxt, wnd) && |r.queue| <= wnd < HALF
    ensures ReceiverInv(Drain(r, wnd), wnd)
    decreases |r.buf|
  {
    if r.buf != [] && r.buf[0].sn == r.nxt && |r.queue| < wnd {
      var r' := r.(buf := r.buf[1..], queue := r.queue + [r.buf[0]], nxt := Add(r.nxt, 1));
      var sns := Numbers(r.buf);
      assert Numbers(r'.buf) == sns[1..];
      forall i | 0 <= i < |sns[1..]| ensures Off(sns[1..][i], r'.nxt) == Off(sns[i + 1], r.nxt) - 1 {
        assert Off(sns[0], r.nxt) < Off(sns[i + 1], r.nxt);
      }
      DrainKeeps(r', wnd);
    }
  }

  lemma {:induction false} TakePushKeeps(r: Receiver, p: Packet, wnd: u32)
    requires ReceiverInv(r, wnd) && wnd < HALF
    ensures ReceiverInv(TakePush(r, p, wnd), wnd)
  {
    if Diff(p.sn, Add(r.nxt, wnd)) < 0 && Diff(p.sn, r.nxt) >= 0 {
      assert Off(p.sn, r.nxt) < wnd;
      InsertClimbs(r.buf, p, r.nxt, wnd);
      DrainKeeps(r.(acks := r.acks + [Ack(p.sn, p.ts)], buf := Insert(r.buf, p)), wnd);
    }
  }

  // ----- every call keeps the invariant -----

  lemma {:induction false} TakeKeepsInv(st: Scan, p: Packet)
    requires Inv(st.k)
    ensures Inv(Take(st, p).k)
  {
    var k := st.k;
    TakeUnaKeeps(k.snd, p.una, k.cfg.sndWnd);
    TakeAckKeeps(TakeUna(k.snd, p.una), p.sn, k.cfg.sndWnd);
    TakePushKeeps(k.rcv, p, k.cfg.rcvWnd);
  }

  lemma {:induction false} TakeAllKeepsInv(st: Scan, ps: seq<Packet>)
    requires Inv(st.k)
    ensures Inv(TakeAll(st, ps).k)
    decreases |ps|
  {
    if ps != [] {
      TakeKeepsInv(st, ps[0]);
      TakeAllKeepsInv(Take(st, ps[0]), ps[1..]);
    }
  }

  /** Arbitrary bytes keep the invariant, also when the datagram is rejected half way. */
  lemma {:induction false} InputKeepsInv(k: Kcp, data: seq<byte>)
    requires Inv(k)
    ensures Inv(Input(k, data).0)
  {
    if |data| >= OVERHEAD {
      var ps := Parse(k.cfg.conv, data).packets;
      TakeAllKeepsInv(Scan(k, false, 0), ps);
      TakeAllKeepsConfig(Scan(k, false, 0), ps);
      var st := TakeAll(Scan(k, false, 0), ps);
      TakeFastackKeeps(st.k.snd, st.maxack, k.cfg.sndWnd);
    }
  }

  lemma {:induction false} RecvKeepsInv(k: Kcp, len: int)
    requires Inv(k)
    ensures Inv(Recv(k, len).0)
  {
    var n := FragCount(k.rcv.queue);
    DrainKeeps(k.rcv.(queue := if len < 0 then k.rcv.queue else k.rcv.queue[n..]), k.cfg.rcvWnd);
  }

  lemma {:induction false} SendKeepsInv(k: Kcp, buffer: seq<byte>, len: int)
    requires Inv(k) && len <= |buffer|
    ensures Inv(Send(k, buffer, len).0)
  {
  }

  lemma {:induction false} FlushKeepsInv(k: Kcp)
    requires Inv(k)
    ensures Inv(FlushState(k))
  {
    PromoteKeeps(k.snd, Window(k.cfg, k.ctl), k.ctl.rto, StampOf(k), k.cfg.sndWnd);
    XmitAllKeepsNumbers(Promoted(k).buf, PolicyOf(k));
    var s := FlushState(k).snd;
    assert s.buf != [] ==> s.buf[0].pkt.sn == Promoted(k).buf[0].pkt.sn;
  }

  lemma {:induction false} UpdateKeepsInv(k: Kcp, now: u32)
    requires Inv(k) && Stocked(k.cfg, k.snd)
    ensures Inv(Update(k, now).0)
  {
    FlushKeepsInv(k.(ctl := Tick(k.ctl, k.cfg.interval, now).0));
  }

  lemma {:induction false} CreateHasInv(cfg: Config)
    requires cfg.Valid()
    ensures Inv(Create(cfg))
  {
  }
}
