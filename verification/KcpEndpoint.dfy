/** The endpoint as ikcp.c has it: fields, queues and buffers changed in place, each method proved against KcpSpec. */
module KcpEndpoint {
  import opened Basics
  import opened KcpWire
  import opened KcpSpec
  import opened KcpWindow
  import opened KcpMessages
  import opened KcpSystem

  /** A flat list of numbers and time stamps read as pairs. */
  function Pairs(flat: seq<u32>): (acks: seq<Ack>)
    requires |flat| % 2 == 0
    ensures |acks| == |flat| / 2
  {
    seq(|flat| / 2, i requires 0 <= i < |flat| / 2 => Ack(flat[2 * i], flat[2 * i + 1]))
  }

  /** The search for an acknowledged segment, `i` segments on. */
  lemma {:induction false} RemoveAckAt(buf: seq<Seg>, i: nat, sn: u32)
    requires i < |buf|
    ensures var at := buf[..i] + RemoveAck(buf[i..], sn);
      if sn == buf[i].pkt.sn then at == buf[..i] + buf[i + 1..]
      else if Diff(sn, buf[i].pkt.sn) < 0 then at == buf
      else at == buf[..i + 1] + RemoveAck(buf[i + 1..], sn)
  {
    var tail := buf[i..];
    assert tail[0] == buf[i] && tail[1..] == buf[i + 1..];
    assert buf[..i] + tail == buf && buf[..i + 1] == buf[..i] + [buf[i]];
  }

  /** The count of overtaking acknowledgements, `i` segments on, where segment `i` becomes `seg`. */
  lemma {:induction false} CountSkipsAt(buf: seq<Seg>, i: nat, sn: u32, seg: Seg)
    requires i < |buf|
    requires seg == if sn != buf[i].pkt.sn then buf[i].(fastack := Add(buf[i].fastack, 1)) else buf[i]
    ensures var at, buf' := buf[..i] + CountSkips(buf[i..], sn), buf[i := seg];
      at == if Diff(sn, buf[i].pkt.sn) < 0 then buf else buf'[..i + 1] + CountSkips(buf'[i + 1..], sn)
  {
    var tail, buf' := buf[i..], buf[i := seg];
    assert tail[0] == buf[i] && tail[1..] == buf[i + 1..] == buf'[i + 1..];
    assert buf[..i] + tail == buf && buf'[..i + 1] == buf[..i] + [seg];
  }

  /** The state after the control segments of a flush. */
  ghost function Quiet(k: Kcp): Kcp {
    k.(rcv := k.rcv.(acks := []), ctl := ProbeTimer(k.ctl).(askSend := false, askTell := false))
  }

  ghost function ControlPackets(k: Kcp, stamp: Stamp): seq<Packet> {
    AckPackets(k.rcv.acks, stamp) + ProbePackets(ProbeTimer(k.ctl), k.rcv.acks, stamp)
  }

  ghost function DataSegs(k: Kcp, stamp: Stamp): Sender {
    Promote(k.snd, Window(k.cfg, k.ctl), k.ctl.rto, stamp)
  }

  ghost function DataPolicy(k: Kcp, stamp: Stamp): Policy {
    PolicyOf(k).(stamp := stamp)
  }

  /** The counters after the transmission loop, and the window they settle. */
  ghost function DataControl(cfg: Config, c: Control, buf: seq<Seg>, inflight: u32, p: Policy): Control
    requires cfg.Valid()
  {
    Settle(c.(xmit := Bump(c.xmit, Tally(buf, p, Timeout)), dead := c.dead || GivesUp(buf, p, cfg.deadLink)),
           cfg.Mss(), Window(cfg, c), inflight, p.resent, Tally(buf, p, Fast) > 0, Tally(buf, p, Timeout) > 0)
  }

  /** The state after the data segments of a flush. */
  ghost function SendData(k: Kcp, stamp: Stamp): Kcp
    requires k.cfg.Valid()
  {
    var s, p := DataSegs(k, stamp), DataPolicy(k, stamp);
    k.(snd := s.(buf := XmitAll(s.buf, p)), ctl := DataControl(k.cfg, k.ctl, s.buf, Off(s.nxt, s.una), p))
  }

  /** A flush is its control segments followed by its data segments. */
  lemma {:induction false} FlushInTwo(k: Kcp)
    requires k.cfg.Valid()
    ensures FlushState(k) == SendData(Quiet(k), StampOf(k))
    ensures FlushPackets(k) ==
      ControlPackets(k, StampOf(k)) + DataPackets(DataSegs(Quiet(k), StampOf(k)).buf, DataPolicy(Quiet(k), StampOf(k)))
  {
    var q, stamp := Quiet(k), StampOf(k);
    assert q.ctl.rmtWnd == k.ctl.rmtWnd && q.ctl.cwnd == k.ctl.cwnd && q.ctl.rto == k.ctl.rto;
    assert DataSegs(q, stamp) == Promoted(k) && DataPolicy(q, stamp) == PolicyOf(k);
  }

  /** What a transmission loop has done after its first segments: the buffer, the packets sent, and its counters. */
  datatype Sweep = Sweep(buf: seq<Seg>, sent: seq<Packet>, change: nat, lost: bool, xmit: u32, dead: bool)

  ghost function SweepAt(buf: seq<Seg>, i: nat, p: Policy, deadLink: u32, start: Sweep): Sweep
    requires i <= |buf|
  {
    var done := buf[..i];
    Sweep(XmitAll(done, p) + buf[i..], start.sent + DataPackets(done, p), Tally(done, p, Fast),
          Tally(done, p, Timeout) > 0,
          Bump(start.xmit, Tally(done, p, Timeout)), start.dead || GivesUp(done, p, deadLink))
  }

  lemma {:induction false} SweepStep(buf: seq<Seg>, i: nat, p: Policy, deadLink: u32, start: Sweep)
    requires i < |buf|
    ensures var w, why, seg := SweepAt(buf, i, p, deadLink, start), Why(buf[i], p), Xmit(buf[i], p);
      && |w.buf| == |buf| && w.buf[i] == buf[i]
      && SweepAt(buf, i + 1, p, deadLink, start) ==
         Sweep(w.buf[i := seg], w.sent + (if why == Idle then [] else [seg.pkt]),
               if why == Fast then w.change + 1 else w.change, w.lost || why == Timeout,
               if why == Timeout then Add(w.xmit, 1) else w.xmit, w.dead || (why != Idle && seg.xmit >= deadLink))
  {
    var longer, shorter := buf[..i + 1], buf[..i];
    assert longer[..i] == shorter && longer[i] == buf[i];
    assert XmitAll(longer, p) + buf[i + 1..] == (XmitAll(shorter, p) + buf[i..])[i := Xmit(buf[i], p)];
    GivesUpSnoc(shorter, buf[i], p, deadLink);
    assert longer == shorter + [buf[i]];
  }

  lemma {:induction false} SweepStart(buf: seq<Seg>, p: Policy, deadLink: u32, start: Sweep)
    requires start.buf == buf && start.change == 0 && !start.lost
    ensures SweepAt(buf, 0, p, deadLink, start) == start
  {
    assert start.sent + [] == start.sent;
  }

  lemma {:induction false} SweepEnd(buf: seq<Seg>, p: Policy, deadLink: u32, start: Sweep)
    ensures SweepAt(buf, |buf|, p, deadLink, start) ==
      Sweep(XmitAll(buf, p), start.sent + DataPackets(buf, p), Tally(buf, p, Fast), Tally(buf, p, Timeout) > 0,
            Bump(start.xmit, Tally(buf, p, Timeout)), start.dead || GivesUp(buf, p, deadLink))
  {
    assert buf[..|buf|] == buf;
  }

  lemma {:induction false} GivesUpSnoc(buf: seq<Seg>, g: Seg, p: Policy, deadLink: u32)
    ensures GivesUp(buf + [g], p, deadLink) <==>
      GivesUp(buf, p, deadLink) || (Why(g, p) != Idle && Xmit(g, p).xmit >= deadLink)
  {
    var longer := buf + [g];
    if i :| 0 <= i < |buf| && Why(buf[i], p) != Idle && Xmit(buf[i], p).xmit >= deadLink {
      assert longer[i] == buf[i];
    }
    assert longer[|buf|] == g;
  }

  /** The eight fields of a header, appended one after the other. */
  lemma {:induction false} HeaderFlat(p: Packet, start: seq<byte>)
    ensures start + Encode32(p.conv) + [p.cmd] + [p.frg] + Encode16(p.wnd) + Encode32(p.ts) + Encode32(p.sn)
      + Encode32(p.una) + Encode32(|p.data|) == start + Header(p, [])
  {
    var t5 := Encode32(|p.data|) + [];
    var t4 := Encode32(p.una) + t5;
    var t3 := Encode32(p.sn) + t4;
    var t2 := Encode32(p.ts) + t3;
    var t1 := Encode16(p.wnd) + t2;
    var t0 := [p.cmd, p.frg] + t1;
    var s1 := start + Encode32(p.conv);
    var s2 := s1 + [p.cmd] + [p.frg];
    var s3 := s2 + Encode16(p.wnd);
    var s4 := s3 + Encode32(p.ts);
    var s5 := s4 + Encode32(p.sn);
    var s6 := s5 + Encode32(p.una);
    assert start + Header(p, []) == s1 + t0;
    assert s1 + t0 == s2 + t1;
    assert s2 + t1 == s3 + t2;
    assert s3 + t2 == s4 + t3;
    assert s4 + t3 == s5 + t4;
    assert s5 + t4 == s6 + t5;
  }

  /** Merging one more segment appends its data. */
  lemma {:induction false} MergeSnoc(ps: seq<Packet>, i: nat)
    requires i < |ps|
    ensures Merge(ps[..i + 1]) == Merge(ps[..i]) + ps[i].data
  {
    if i > 0 {
      MergeSnoc(ps[1..], i - 1);
      assert ps[..i + 1][1..] == ps[1..][..i] && ps[..i][1..] == ps[1..][..i - 1];
    } else {
      assert ps[..1] == [ps[0]] && Merge([ps[0]]) == ps[0].data + Merge([]);
    }
  }

  lemma {:induction false} SendStocked(k: Kcp, buffer: seq<byte>, len: int)
    requires k.cfg.Valid() && Stocked(k.cfg, k.snd) && 0 <= len <= |buffer|
    ensures Stocked(k.cfg, KcpSpec.Send(k, buffer, len).0.snd)
  {
    SubmitStocked(k, buffer[..len]);
    assert buffer[..len][..len] == buffer[..len];
  }

  /** One step of the backward search for the place of a new segment. */
  lemma {:induction false} InsertBack(buf: seq<Packet>, p: nat, q: Packet)
    requires 0 < p <= |buf|
    ensures Insert(buf[..p], q) + buf[p..] ==
      if buf[p - 1].sn == q.sn then buf
      else if Diff(q.sn, buf[p - 1].sn) > 0 then buf[..p] + [q] + buf[p..]
      else Insert(buf[..p - 1], q) + buf[p - 1..]
  {
    var init := buf[..p];
    assert init[..p - 1] == buf[..p - 1] && init[p - 1] == buf[p - 1];
    assert [buf[p - 1]] + buf[p..] == buf[p - 1..] && init + buf[p..] == buf;
  }

  lemma {:induction false} DrainUnfolds(r: Receiver, wnd: u32)
    ensures Drain(r, wnd) ==
      if r.buf != [] && r.buf[0].sn == r.nxt && |r.queue| < wnd
      then Drain(r.(buf := r.buf[1..], queue := r.queue + [r.buf[0]], nxt := Add(r.nxt, 1)), wnd) else r
  {
  }

  class Ikcp {
    const cfg: Config
    var mss: u32

    var sndUna: u32
    var sndNxt: u32
    var rcvNxt: u32

    var sndQueue: seq<Frag>
    var sndBuf: seq<Seg>
    var rcvQueue: seq<Packet>
    var rcvBuf: seq<Packet>
    var nsndQue: nat
    var nsndBuf: nat
    var nrcvQue: nat
    var nrcvBuf: nat

    /** Pairs of number and time stamp, with room for `ackblock` pairs. */
    var acklist: array<u32>
    var ackcount: nat
    var ackblock: nat

    /** The output buffer, and the datagrams the output callback has received. */
    var buffer: array<byte>
    var output: seq<seq<byte>>

    var ctl: Control

    ghost function Acks(): (acks: seq<Ack>)
      requires 2 * ackcount <= acklist.Length
      reads `acklist, `ackcount, acklist
      ensures |acks| == ackcount
    {
      Pairs(acklist[..2 * ackcount])
    }

    /** Counters agree with lists, blocks with their sizes. */
    ghost predicate Layout()
      reads this, acklist, buffer
    {
      && cfg.Valid() && mss == cfg.Mss()
      && nsndQue == |sndQueue| && nsndBuf == |sndBuf| && nrcvQue == |rcvQueue| && nrcvBuf == |rcvBuf|
      && ackcount <= ackblock && acklist.Length == 2 * ackblock
      && buffer.Length == (cfg.mtu + OVERHEAD) * 3
      && (acklist as object) != (buffer as object)
    }

    /** The state of the endpoint as a value. */
    ghost function State(): Kcp
      requires Layout()
      reads this, acklist, buffer
    {
      Kcp(cfg, Sender(sndUna, sndNxt, sndQueue, sndBuf), Receiver(rcvNxt, rcvQueue, rcvBuf, Acks()), ctl)
    }

    /** What every call of the interface keeps. */
    ghost predicate Valid()
      reads this, acklist, buffer
    {
      Layout() && Inv(State()) && Stocked(cfg, State().snd)
    }

    constructor (cfg: Config)
      requires cfg.Valid()
      ensures Valid() && State() == Create(cfg) && output == []
      ensures fresh(acklist) && fresh(buffer)
    {
      this.cfg := cfg;
      mss := cfg.Mss();
      sndUna, sndNxt, rcvNxt := 0, 0, 0;
      sndQueue, sndBuf, rcvQueue, rcvBuf := [], [], [], [];
      nsndQue, nsndBuf, nrcvQue, nrcvBuf := 0, 0, 0, 0;
      ackcount, ackblock := 0, 0;
      output := [];
      ctl := Create(cfg).ctl;
      acklist := new u32[0];
      buffer := new byte[(cfg.mtu + OVERHEAD) * 3];
      new;
      CreateHasInv(cfg);
    }

    // ----- sending side: acknowledgements -----

    /** `ikcp_parse_una`. */
    method ParseUna(una: u32)
      requires nsndBuf == |sndBuf|
      modifies `sndBuf, `nsndBuf
      ensures sndBuf == DropUna(old(sndBuf), una) && nsndBuf == |sndBuf|
    {
      while sndBuf != []
        invariant DropUna(sndBuf, una) == DropUna(old(sndBuf), una) && nsndBuf == |sndBuf|
        decreases |sndBuf|
      {
        if Diff(una, sndBuf[0].pkt.sn) > 0 {
          sndBuf := sndBuf[1..];
          nsndBuf := nsndBuf - 1;
        } else {
          break;
        }
      }
    }

    /** `ikcp_shrink_buf`. */
    method ShrinkBuf()
      modifies `sndUna
      ensures sndUna == if sndBuf != [] then sndBuf[0].pkt.sn else sndNxt
    {
      if sndBuf != [] {
        sndUna := sndBuf[0].pkt.sn;
      } else {
        sndUna := sndNxt;
      }
    }

    /** `ikcp_parse_ack`. */
    method ParseAck(sn: u32)
      requires nsndBuf == |sndBuf|
      modifies `sndBuf, `nsndBuf
      ensures nsndBuf == |sndBuf|
      ensures sndBuf == if Diff(sn, sndUna) < 0 || Diff(sn, sndNxt) >= 0 then old(sndBuf)
              else RemoveAck(old(sndBuf), sn)
    {
      if Diff(sn, sndUna) < 0 || Diff(sn, sndNxt) >= 0 {
        return;
      }
      ghost var buf := sndBuf;
      assert buf[..0] + RemoveAck(buf[0..], sn) == RemoveAck(buf, sn) by {
        assert buf[0..] == buf;
      }
      var i := 0;
      while i < |sndBuf|
        invariant 0 <= i <= |sndBuf| && sndBuf == buf && nsndBuf == |buf|
        invariant RemoveAck(buf, sn) == buf[..i] + RemoveAck(buf[i..], sn)
      {
        var seg := sndBuf[i];
        RemoveAckAt(buf, i, sn);
        if sn == seg.pkt.sn {
          sndBuf := sndBuf[..i] + sndBuf[i + 1..];
          nsndBuf := nsndBuf - 1;
          return;
        }
        if Diff(sn, seg.pkt.sn) < 0 {
          return;
        }
        i := i + 1;
      }
      assert buf[..i] + [] == buf;
    }

    /** `ikcp_parse_fastack`, counters bumped in place. */
    method ParseFastack(sn: u32)
      modifies `sndBuf
      ensures |sndBuf| == |old(sndBuf)|
      ensures sndBuf == if Diff(sn, sndUna) < 0 || Diff(sn, sndNxt) >= 0 then old(sndBuf)
              else CountSkips(old(sndBuf), sn)
    {
      if Diff(sn, sndUna) < 0 || Diff(sn, sndNxt) >= 0 {
        return;
      }
      assert sndBuf[0..] == sndBuf;
      var i := 0;
      while i < |sndBuf|
        invariant 0 <= i <= |sndBuf| == |old(sndBuf)|
        invariant CountSkips(old(sndBuf), sn) == sndBuf[..i] + CountSkips(sndBuf[i..], sn)
      {
        var seg := sndBuf[i];
        var counted := if sn != seg.pkt.sn then seg.(fastack := Add(seg.fastack, 1)) else seg;
        CountSkipsAt(sndBuf, i, sn, counted);
        if Diff(sn, seg.pkt.sn) < 0 {
          return;
        }
        sndBuf := sndBuf[i := counted];
        i := i + 1;
      }
      assert sndBuf[..i] + [] == sndBuf;
    }

    /** `ikcp_update_ack`. */
    method UpdateAck(rtt: int)
      requires rtt >= 0
      modifies `ctl
      ensures ctl == TakeRtt(old(ctl), cfg, rtt)
    {
      if ctl.srtt == 0 {
        ctl := ctl.(rttval := rtt / 2);
        ctl := ctl.(srtt := rtt);
      } else {
        var delta := rtt - ctl.srtt;
        if delta < 0 {
          delta := -delta;
        }
        ctl := ctl.(rttval := (3 * ctl.rttval + delta) / 4);
        ctl := ctl.(srtt := (7 * ctl.srtt + rtt) / 8);
        if ctl.srtt < 1 {
          ctl := ctl.(srtt := 1);
        }
      }
      var rto := Wrap(ctl.srtt + Max(cfg.interval, Wrap(4 * ctl.rttval)));
      ctl := ctl.(rto := Min(Max(cfg.minRto, rto), RTO_MAX));
    }

    /** The growth step of `ikcp_ack_push`: the block doubles from 8 until one more pair fits. */
    method GrowAcks()
      requires Layout()
      modifies `acklist, `ackblock
      ensures Layout() && ackcount + 1 <= ackblock && fresh(acklist)
      ensures acklist[..2 * ackcount] == old(acklist[..2 * ackcount])
    {
      var newsize, newblock := ackcount + 1, 8;
      while newblock < newsize
        invariant newblock >= 8
        decreases newsize - newblock
      {
        newblock := newblock * 2;
      }
      var list := new u32[newblock * 2];
      var x := 0;
      while x < ackcount
        invariant 0 <= x <= ackcount
        invariant list[..2 * x] == acklist[..2 * x]
        modifies list
      {
        list[x * 2] := acklist[x * 2];
        list[x * 2 + 1] := acklist[x * 2 + 1];
        assert list[..2 * (x + 1)] == list[..2 * x] + [list[2 * x], list[2 * x + 1]];
        assert acklist[..2 * (x + 1)] == acklist[..2 * x] + [acklist[2 * x], acklist[2 * x + 1]];
        x := x + 1;
      }
      acklist := list;
      ackblock := newblock;
    }

    /** `ikcp_ack_push`. */
    method AckPush(sn: u32, ts: u32)
      requires Layout()
      modifies `acklist, `ackcount, `ackblock, acklist
      ensures Layout() && Acks() == old(Acks()) + [Ack(sn, ts)]
      ensures acklist == old(acklist) || fresh(acklist)
    {
      if ackcount + 1 > ackblock {
        GrowAcks();
      }
      ghost var flat := acklist[..2 * ackcount];
      acklist[ackcount * 2] := sn;
      acklist[ackcount * 2 + 1] := ts;
      ackcount := ackcount + 1;
      assert acklist[..2 * ackcount] == flat + [sn, ts];
      assert Pairs(flat + [sn, ts]) == Pairs(flat) + [Ack(sn, ts)];
    }

    // ----- receiving side -----

    /** The loop of `ikcp_parse_data` and `ikcp_recv` that moves available data to the queue. */
    method MoveAvailable()
      requires Layout()
      modifies `rcvBuf, `rcvQueue, `rcvNxt, `nrcvBuf, `nrcvQue
      ensures Layout() && State() == old(State()).(rcv := Drain(old(State()).rcv, cfg.rcvWnd))
    {
      hide Drain;
      while rcvBuf != []
        invariant Layout()
        invariant State() == old(State()).(rcv := State().rcv)
        invariant Drain(State().rcv, cfg.rcvWnd) == Drain(old(State()).rcv, cfg.rcvWnd)
        decreases |rcvBuf|
      {
        DrainUnfolds(State().rcv, cfg.rcvWnd);
        var seg := rcvBuf[0];
        if seg.sn == rcvNxt && nrcvQue < cfg.rcvWnd {
          rcvBuf := rcvBuf[1..];
          nrcvBuf := nrcvBuf - 1;
          rcvQueue := rcvQueue + [seg];
          nrcvQue := nrcvQue + 1;
          rcvNxt := Add(rcvNxt, 1);
        } else {
          break;
        }
      }
      DrainUnfolds(State().rcv, cfg.rcvWnd);
    }

    /** The backward search of `ikcp_parse_data`: where `newseg` goes, unless its number is there already. */
    method FindSlot(newseg: Packet) returns (p: nat, repeat: bool)
      ensures p <= |rcvBuf|
      ensures Insert(rcvBuf, newseg) == if repeat then rcvBuf else rcvBuf[..p] + [newseg] + rcvBuf[p..]
    {
      p, repeat := |rcvBuf|, false;
      assert rcvBuf[..p] == rcvBuf;
      while p > 0
        invariant 0 <= p <= |rcvBuf|
        invariant Insert(rcvBuf, newseg) == Insert(rcvBuf[..p], newseg) + rcvBuf[p..]
      {
        InsertBack(rcvBuf, p, newseg);
        if rcvBuf[p - 1].sn == newseg.sn {
          return p, true;
        }
        if Diff(newseg.sn, rcvBuf[p - 1].sn) > 0 {
          return p, false;
        }
        p := p - 1;
      }
    }

    /** `ikcp_parse_data`: insert unless repeated, then move what is available. */
    method ParseData(newseg: Packet)
      requires Layout()
      modifies `rcvBuf, `rcvQueue, `rcvNxt, `nrcvBuf, `nrcvQue
      ensures Layout() && State() == old(State()).(rcv := KcpSpec.ParseData(old(State()).rcv, newseg, cfg.rcvWnd))
    {
      var sn := newseg.sn;
      if Diff(sn, Add(rcvNxt, cfg.rcvWnd)) >= 0 || Diff(sn, rcvNxt) < 0 {
        return;
      }
      var p, repeat := FindSlot(newseg);
      if !repeat {
        rcvBuf := rcvBuf[..p] + [newseg] + rcvBuf[p..];
        nrcvBuf := nrcvBuf + 1;
      }
      MoveAvailable();
    }

    // ----- ikcp_input -----

    /** The congestion-window growth at the end of `ikcp_input`. */
    method GrowCwnd()
      requires cfg.Valid() && mss == cfg.Mss()
      modifies `ctl
      ensures ctl == Grow(old(ctl), cfg.Mss())
    {
      if ctl.cwnd < ctl.rmtWnd {
        if ctl.cwnd < ctl.ssthresh {
          ctl := ctl.(cwnd := Add(ctl.cwnd, 1), incr := Add(ctl.incr, mss));
        } else {
          if ctl.incr < mss {
            ctl := ctl.(incr := mss);
          }
          ctl := ctl.(incr := Add(Add(ctl.incr, Quotient(Times(mss, mss), ctl.incr)), mss / 16));
          if Times(Add(ctl.cwnd, 1), mss) <= ctl.incr {
            ctl := ctl.(cwnd := Quotient(Off(Add(ctl.incr, mss), 1), mss));
          }
        }
        if ctl.cwnd > ctl.rmtWnd {
          ctl := ctl.(cwnd := ctl.rmtWnd, incr := Times(ctl.rmtWnd, mss));
        }
      }
    }

    /** The cumulative acknowledgement every segment carries. */
    method TakeUna(una: u32)
      requires Layout()
      modifies `sndBuf, `nsndBuf, `sndUna
      ensures Layout() && State() == old(State()).(snd := KcpSpec.TakeUna(old(State()).snd, una))
    {
      ParseUna(una);
      ShrinkBuf();
    }

    /** An ACK segment. */
    method TakeAck(pkt: Packet, flag: bool, maxack: u32) returns (flag': bool, maxack': u32)
      requires Layout() && pkt.cmd == CMD_ACK
      modifies `sndBuf, `nsndBuf, `sndUna, `ctl
      ensures Layout() && flag' && maxack' == (if !flag || Diff(pkt.sn, maxack) > 0 then pkt.sn else maxack)
      ensures var k, rtt := old(State()), Diff(old(ctl).current, pkt.ts);
        State() == k.(snd := KcpSpec.TakeAck(k.snd, pkt.sn), ctl := if rtt >= 0 then TakeRtt(k.ctl, cfg, rtt)
                      else k.ctl)
    {
      flag', maxack' := flag, maxack;
      var rtt := Diff(ctl.current, pkt.ts);
      if rtt >= 0 {
        UpdateAck(rtt);
      }
      ParseAck(pkt.sn);
      ShrinkBuf();
      if !flag {
        flag', maxack' := true, pkt.sn;
      } else if Diff(pkt.sn, maxack) > 0 {
        maxack' := pkt.sn;
      }
    }

    /** A PUSH segment. */
    method TakePush(pkt: Packet)
      requires Layout()
      modifies `rcvBuf, `rcvQueue, `rcvNxt, `nrcvBuf, `nrcvQue, `acklist, `ackcount, `ackblock, acklist
      ensures Layout() && (acklist == old(acklist) || fresh(acklist))
      ensures State() == old(State()).(rcv := KcpSpec.TakePush(old(State()).rcv, pkt, cfg.rcvWnd))
    {
      if Diff(pkt.sn, Add(rcvNxt, cfg.rcvWnd)) < 0 {
        AckPush(pkt.sn, pkt.ts);
        if Diff(pkt.sn, rcvNxt) >= 0 {
          ParseData(pkt);
        }
      }
    }

    /** One segment of a datagram, after the header checks. */
    method TakeSegment(pkt: Packet, flag: bool, maxack: u32) returns (flag': bool, maxack': u32)
      requires Layout()
      modifies `sndBuf, `nsndBuf, `sndUna, `rcvBuf, `rcvQueue, `rcvNxt, `nrcvBuf, `nrcvQue
      modifies `acklist, `ackcount, `ackblock, acklist, `ctl
      ensures Layout() && (acklist == old(acklist) || fresh(acklist))
      ensures Scan(State(), flag', maxack') == KcpSpec.Take(Scan(old(State()), flag, maxack), pkt)
    {
      ghost var k := State();
      flag', maxack' := flag, maxack;
      ctl := ctl.(rmtWnd := pkt.wnd);
      assert State() == k.(ctl := ctl);
      TakeUna(pkt.una);
      if pkt.cmd == CMD_ACK {
        flag', maxack' := TakeAck(pkt, flag, maxack);
      } else if pkt.cmd == CMD_PUSH {
        TakePush(pkt);
      } else if pkt.cmd == CMD_WASK {
        ctl := ctl.(askTell := true);
      }
    }

    /** The loop of `ikcp_input`. */
    method ScanDatagram(data: seq<byte>) returns (code: int, flag: bool, maxack: u32)
      requires Layout()
      modifies `sndBuf, `nsndBuf, `sndUna, `rcvBuf, `rcvQueue, `rcvNxt, `nrcvBuf, `nrcvQue
      modifies `acklist, `ackcount, `ackblock, acklist, `ctl
      ensures Layout() && (acklist == old(acklist) || fresh(acklist))
      ensures code == Parse(cfg.conv, data).code
      ensures Scan(State(), flag, maxack) == TakeAll(Scan(old(State()), false, 0), Parse(cfg.conv, data).packets)
    {
      ghost var all := Parse(cfg.conv, data);
      ghost var result := TakeAll(Scan(State(), false, 0), all.packets);
      var rest := data;
      flag, maxack := false, 0;
      while |rest| >= OVERHEAD
        invariant Layout() && (acklist == old(acklist) || fresh(acklist))
        invariant Parse(cfg.conv, rest).code == all.code
        invariant TakeAll(Scan(State(), flag, maxack), Parse(cfg.conv, rest).packets) == result
        decreases |rest|
      {
        var (head, len, tail) := DecodeHeader(rest);
        if head.conv != cfg.conv {
          return -1, flag, maxack;
        }
        if |tail| < len || len >= HALF {
          return -2, flag, maxack;
        }
        if !KnownCommand(head.cmd) {
          return -3, flag, maxack;
        }
        var pkt := head.(data := tail[..len]);
        assert Parse(cfg.conv, rest).packets[0] == pkt;
        assert Parse(cfg.conv, rest).packets[1..] == Parse(cfg.conv, tail[len..]).packets;
        flag, maxack := TakeSegment(pkt, flag, maxack);
        rest := tail[len..];
      }
      code := 0;
    }

    /** The updates after the loop of `ikcp_input`. */
    method FinishInput(flag: bool, maxack: u32, prevUna: u32)
      requires Layout()
      modifies `sndBuf, `ctl
      ensures Layout() && State() == KcpSpec.FinishInput(Scan(old(State()), flag, maxack), prevUna)
    {
      if flag {
        ParseFastack(maxack);
      }
      if Diff(sndUna, prevUna) > 0 {
        GrowCwnd();
      }
    }

    /** `ikcp_input`, on a datagram long enough to hold a header. */
    method InputSegments(data: seq<byte>) returns (code: int)
      requires Layout() && |data| >= OVERHEAD
      modifies `sndBuf, `nsndBuf, `sndUna, `rcvBuf, `rcvQueue, `rcvNxt, `nrcvBuf, `nrcvQue
      modifies `acklist, `ackcount, `ackblock, acklist, `ctl
      ensures Layout() && (State(), code) == KcpSpec.Input(old(State()), data)
      ensures acklist == old(acklist) || fresh(acklist)
    {
      var prevUna, flag, maxack := sndUna, false, 0;
      code, flag, maxack := ScanDatagram(data);
      if code == 0 {
        FinishInput(flag, maxack, prevUna);
      }
    }

    /** `ikcp_input`. */
    method Input(data: seq<byte>) returns (code: int)
      requires Valid()
      modifies `sndBuf, `nsndBuf, `sndUna, `rcvBuf, `rcvQueue, `rcvNxt, `nrcvBuf, `nrcvQue
      modifies `acklist, `ackcount, `ackblock, acklist, `ctl
      ensures Valid() && (State(), code) == KcpSpec.Input(old(State()), data)
      ensures acklist == old(acklist) || fresh(acklist)
    {
      ghost var k0 := State();
      InputKeepsInv(k0, data);
      InputStocked(k0, data);
      if |data| < OVERHEAD {
        code := -1;
      } else {
        code := InputSegments(data);
      }
    }

    // ----- ikcp_recv and ikcp_peeksize -----

    /** `ikcp_peeksize`. */
    method Peeksize() returns (length: int)
      requires Layout()
      ensures length == PeekSize(rcvQueue)
    {
      if rcvQueue == [] {
        return -1;
      }
      if rcvQueue[0].frg == 0 {
        return |rcvQueue[0].data|;
      }
      if nrcvQue < rcvQueue[0].frg as int + 1 {
        return -1;
      }
      length := 0;
      var p := 0;
      assert rcvQueue[0..] == rcvQueue;
      while p < |rcvQueue|
        invariant 0 <= p <= |rcvQueue|
        invariant FragCount(rcvQueue) == p + FragCount(rcvQueue[p..])
        invariant length == |Merge(rcvQueue[..p])|
      {
        MergeSnoc(rcvQueue, p);
        assert rcvQueue[p..][1..] == rcvQueue[p + 1..];
        length := length + |rcvQueue[p].data|;
        if rcvQueue[p].frg == 0 {
          return;
        }
        p := p + 1;
      }
    }

    /** The merge loop of `ikcp_recv`: copy out up to the last piece, deleting as it goes unless it only peeks. */
    method MergeFragments(ispeek: bool) returns (data: seq<byte>)
      requires nrcvQue == |rcvQueue|
      modifies `rcvQueue, `nrcvQue
      ensures nrcvQue == |rcvQueue|
      ensures var n := FragCount(old(rcvQueue));
        data == Merge(old(rcvQueue)[..n]) && rcvQueue == if ispeek then old(rcvQueue) else old(rcvQueue)[n..]
    {
      ghost var queue, taken := rcvQueue, 0;
      var p, last := rcvQueue, false;
      data := [];
      while p != [] && !last
        invariant 0 <= taken <= |queue| && p == queue[taken..] && nrcvQue == |rcvQueue|
        invariant rcvQueue == if ispeek then queue else queue[taken..]
        invariant data == Merge(queue[..taken])
        invariant FragCount(queue) == taken + if last then 0 else FragCount(p)
        decreases |p|
      {
        var seg := p[0];
        MergeSnoc(queue, taken);
        p := p[1..];
        data := data + seg.data;
        if !ispeek {
          rcvQueue := rcvQueue[1..];
          nrcvQue := nrcvQue - 1;
        }
        last := seg.frg == 0;
        taken := taken + 1;
      }
    }

    /** `ikcp_recv` once a complete message is known to wait. */
    method RecvMessage(ispeek: bool) returns (data: seq<byte>)
      requires Layout() && PeekSize(rcvQueue) >= 0
      modifies `rcvBuf, `rcvQueue, `rcvNxt, `nrcvBuf, `nrcvQue, `ctl
      ensures Layout() && |data| == PeekSize(old(rcvQueue))
      ensures (State(), |data|, data) == KcpSpec.Recv(old(State()), if ispeek then -|data| - 1 else |data|)
    {
      hide Drain, Merge, FragCount, PeekSize;
      PeekIsMergedSize(rcvQueue);
      var recover := nrcvQue >= cfg.rcvWnd;
      data := MergeFragments(ispeek);
      MoveAvailable();
      if nrcvQue < cfg.rcvWnd && recover {
        ctl := ctl.(askTell := true);
      }
    }

    /** `ikcp_recv`: the return code and the bytes copied out; a negative `len` peeks. */
    method Recv(len: int) returns (code: int, data: seq<byte>)
      requires Valid()
      modifies `rcvBuf, `rcvQueue, `rcvNxt, `nrcvBuf, `nrcvQue, `ctl
      ensures Valid() && (State(), code, data) == KcpSpec.Recv(old(State()), len)
    {
      RecvKeepsInv(State(), len);
      if rcvQueue == [] {
        return -1, [];
      }
      var peeksize := Peeksize();
      if peeksize < 0 {
        return -2, [];
      }
      if peeksize > (if len < 0 then -len else len) {
        return -3, [];
      }
      data := RecvMessage(len < 0);
      code := |data|;
    }

    // ----- ikcp_send -----

    method CountPieces(len: nat) returns (count: nat)
      requires mss > 0
      ensures count == FragTotal(len, mss)
    {
      if len <= mss {
        count := 1;
      } else {
        FragTotalIsCeiling(len, mss);
        count := (len + mss - 1) / mss;
      }
    }

    /** The fragment loop of `ikcp_send`. */
    method Fragment(data: seq<byte>, count: nat)
      requires 0 < mss && count <= 256 && nsndQue == |sndQueue|
      modifies `sndQueue, `nsndQue
      ensures nsndQue == |sndQueue| && sndQueue == old(sndQueue) + Fragments(data, mss, count)
    {
      var rest, i := data, 0;
      while i < count
        invariant 0 <= i <= count && nsndQue == |sndQueue|
        invariant sndQueue + Fragments(rest, mss, count - i) == old(sndQueue) + Fragments(data, mss, count)
      {
        var size := if |rest| > mss then mss else |rest|;
        var seg := Frag(count - i - 1, rest[..size]);
        Regroup(sndQueue, [seg], Fragments(rest[size..], mss, count - i - 1));
        sndQueue := sndQueue + [seg];
        nsndQue := nsndQue + 1;
        rest := rest[size..];
        i := i + 1;
      }
      assert sndQueue + [] == sndQueue;
    }

    /** `ikcp_send` in message mode. */
    method Send(data: seq<byte>, len: int) returns (code: int)
      requires Valid() && len <= |data|
      modifies `sndQueue, `nsndQue
      ensures Valid() && (State(), code) == KcpSpec.Send(old(State()), data, len)
    {
      ghost var k0 := State();
      SendKeepsInv(k0, data, len);
      if len < 0 {
        return -1;
      }
      SendStocked(k0, data, len);
      var count := CountPieces(len);
      if count >= WND_RCV {
        return -2;
      }
      Fragment(data[..len], count);
      code := 0;
    }

    // ----- the output buffer -----

    /** `ikcp_encode32u` at `ptr`, which moves on. */
    method Encode32u(ptr: nat, l: u32) returns (next: nat)
      requires ptr + 4 <= buffer.Length
      modifies buffer
      ensures next == ptr + 4 && buffer[..next] == old(buffer[..ptr]) + Encode32(l)
    {
      var code := Encode32(l);
      buffer[ptr], buffer[ptr + 1], buffer[ptr + 2], buffer[ptr + 3] := code[0], code[1], code[2], code[3];
      next := ptr + 4;
      assert buffer[..next] == buffer[..ptr] + [code[0], code[1], code[2], code[3]];
    }

    method Encode16u(ptr: nat, w: u16) returns (next: nat)
      requires ptr + 2 <= buffer.Length
      modifies buffer
      ensures next == ptr + 2 && buffer[..next] == old(buffer[..ptr]) + Encode16(w)
    {
      buffer[ptr], buffer[ptr + 1] := w % 256, w / 256;
      next := ptr + 2;
      assert buffer[..next] == buffer[..ptr] + [w % 256, w / 256];
    }

    method Encode8u(ptr: nat, c: byte) returns (next: nat)
      requires ptr + 1 <= buffer.Length
      modifies buffer
      ensures next == ptr + 1 && buffer[..next] == old(buffer[..ptr]) + [c]
    {
      buffer[ptr] := c;
      next := ptr + 1;
      assert buffer[..next] == buffer[..ptr] + [c];
    }

    /** `ikcp_encode_seg`. */
    method EncodeSeg(ptr: nat, seg: Packet) returns (next: nat)
      requires ptr + OVERHEAD <= buffer.Length
      modifies buffer
      ensures next == ptr + OVERHEAD && buffer[..next] == old(buffer[..ptr]) + Header(seg, [])
    {
      ghost var start := buffer[..ptr];
      next := Encode32u(ptr, seg.conv);
      next := Encode8u(next, seg.cmd);
      next := Encode8u(next, seg.frg);
      next := Encode16u(next, seg.wnd);
      next := Encode32u(next, seg.ts);
      next := Encode32u(next, seg.sn);
      next := Encode32u(next, seg.una);
      next := Encode32u(next, |seg.data|);
      HeaderFlat(seg, start);
    }

    /** `memcpy` of a payload into the output buffer. */
    method CopyData(ptr: nat, data: payload) returns (next: nat)
      requires ptr + |data| <= buffer.Length
      modifies buffer
      ensures next == ptr + |data| && buffer[..next] == old(buffer[..ptr]) + data
    {
      ghost var start := buffer[..ptr];
      var i := 0;
      while i < |data|
        invariant 0 <= i <= |data| && buffer[..ptr + i] == start + data[..i]
      {
        buffer[ptr + i] := data[i];
        assert buffer[..ptr + i + 1] == buffer[..ptr + i] + [data[i]];
        assert data[..i + 1] == data[..i] + [data[i]];
        i := i + 1;
      }
      next := ptr + i;
      assert data[..i] == data;
    }

    /** The segments `ps` have been written: whole datagrams to the network since `base`, the rest up to `ptr`. */
    ghost predicate Written(ptr: nat, base: seq<seq<byte>>, ps: seq<Packet>)
      reads `buffer, `output, buffer
    {
      && ptr <= cfg.mtu <= buffer.Length
      && var o := AppendAll(Out([], []), ps, cfg.mtu);
         output == base + o.done && buffer[..ptr] == o.cur
    }

    /** `ikcp_output` of the first `size` bytes of the buffer. */
    method Emit(size: nat)
      requires size <= buffer.Length
      modifies `output
      ensures output == if size > 0 then old(output) + [buffer[..size]] else old(output)
    {
      if size > 0 {
        output := output + [buffer[..size]];
      }
    }

    /** A segment and its payload at `ptr`. */
    method WriteSegment(ptr: nat, seg: Packet) returns (next: nat)
      requires ptr + OVERHEAD + |seg.data| <= buffer.Length
      modifies buffer
      ensures next == ptr + OVERHEAD + |seg.data| && buffer[..next] == old(buffer[..ptr]) + Encode(seg)
    {
      ghost var start := buffer[..ptr];
      next := EncodeSeg(ptr, seg);
      next := CopyData(next, seg.data);
      HeaderAssoc(seg, [], seg.data);
      assert [] + seg.data == seg.data;
      assert start + Header(seg, []) + seg.data == start + (Header(seg, []) + seg.data);
    }

    /** Write one segment, first handing over the buffer if the segment does not fit. */
    method Put(ptr: nat, seg: Packet, ghost base: seq<seq<byte>>, ghost ps: seq<Packet>) returns (next: nat)
      requires Written(ptr, base, ps) && OVERHEAD + |seg.data| <= cfg.mtu < HALF
      modifies buffer, `output
      ensures Written(next, base, ps + [seg])
    {
      ghost var o := AppendAll(Out([], []), ps, cfg.mtu);
      ghost var o' := Append(o, Encode(seg), cfg.mtu);
      assert AppendAll(Out([], []), ps + [seg], cfg.mtu) == o' by {
        assert (ps + [seg])[..|ps|] == ps;
      }
      next := ptr;
      if next + (OVERHEAD + |seg.data|) > cfg.mtu {
        Emit(next);
        next := WriteSegment(0, seg);
        assert output == base + o'.done;
      } else {
        next := WriteSegment(next, seg);
      }
    }

    // ----- ikcp_flush -----

    /** `ikcp_ack_get`. */
    method AckGet(p: nat) returns (ack: Ack)
      requires Layout() && p < ackcount
      ensures ack == Acks()[p]
    {
      ack := Ack(acklist[p * 2], acklist[p * 2 + 1]);
    }

    lemma {:induction false} OneAckMore(acks: seq<Ack>, stamp: Stamp, i: nat)
      requires i < |acks|
      ensures AckPackets(acks, stamp)[..i + 1] == AckPackets(acks, stamp)[..i] +
              [Packet(stamp.conv, CMD_ACK, 0, stamp.wnd, acks[i].ts, acks[i].sn, stamp.una, [])]
    {
    }

    /** Flush one acknowledgement. */
    method EmitAck(i: nat, ptr: nat, stamp: Stamp, ghost base: seq<seq<byte>>) returns (next: nat, last: Ack)
      requires Layout() && i < ackcount && Written(ptr, base, AckPackets(Acks(), stamp)[..i])
      modifies buffer, `output
      ensures Layout() && Acks() == old(Acks()) && last == old(Acks())[i]
      ensures Written(next, base, AckPackets(old(Acks()), stamp)[..i + 1])
    {
      hide Written, AppendAll, Encode, AckPackets;
      last := AckGet(i);
      var seg := Packet(stamp.conv, CMD_ACK, 0, stamp.wnd, last.ts, last.sn, stamp.una, []);
      OneAckMore(Acks(), stamp, i);
      next := Put(ptr, seg, base, AckPackets(Acks(), stamp)[..i]);
    }

    /** The loop that flushes acknowledgements; the last pair stays in the header for the probes. */
    method EmitAckList(stamp: Stamp) returns (ptr: nat, last: Ack)
      requires Layout()
      modifies buffer, `output
      ensures Layout() && Acks() == old(Acks())
      ensures Written(ptr, old(output), AckPackets(old(Acks()), stamp))
      ensures last == if ackcount == 0 then Ack(0, 0) else old(Acks())[ackcount - 1]
    {
      ptr, last := 0, Ack(0, 0);
      var i := 0;
      while i < ackcount
        invariant 0 <= i <= ackcount && Layout() && Acks() == old(Acks())
        invariant Written(ptr, old(output), AckPackets(old(Acks()), stamp)[..i])
        invariant last == if i == 0 then Ack(0, 0) else old(Acks())[i - 1]
      {
        ptr, last := EmitAck(i, ptr, stamp, old(output));
        i := i + 1;
      }
      assert AckPackets(old(Acks()), stamp)[..i] == AckPackets(old(Acks()), stamp);
    }

    /** Flush acknowledgements. */
    method EmitAcks(stamp: Stamp) returns (ptr: nat, ghost acks: seq<Ack>, last: Ack)
      requires Layout()
      modifies buffer, `output, `ackcount
      ensures Layout() && acks == old(Acks()) && ackcount == 0
      ensures Written(ptr, old(output), AckPackets(acks, stamp))
      ensures last == if acks == [] then Ack(0, 0) else acks[|acks| - 1]
    {
      acks := Acks();
      ptr, last := EmitAckList(stamp);
      ackcount := 0;
    }

    /** The window-probe timer. */
    method ProbeWindow()
      modifies `ctl
      ensures ctl == ProbeTimer(old(ctl))
    {
      if ctl.rmtWnd == 0 {
        if ctl.probeWait == 0 {
          ctl := ctl.(probeWait := PROBE_INIT);
          ctl := ctl.(tsProbe := Add(ctl.current, ctl.probeWait));
        } else if Diff(ctl.current, ctl.tsProbe) >= 0 {
          if ctl.probeWait < PROBE_INIT {
            ctl := ctl.(probeWait := PROBE_INIT);
          }
          ctl := ctl.(probeWait := Add(ctl.probeWait, ctl.probeWait / 2));
          if ctl.probeWait > PROBE_LIMIT {
            ctl := ctl.(probeWait := PROBE_LIMIT);
          }
          ctl := ctl.(tsProbe := Add(ctl.current, ctl.probeWait));
          ctl := ctl.(askSend := true);
        }
      } else {
        ctl := ctl.(tsProbe := 0);
        ctl := ctl.(probeWait := 0);
      }
    }

    /** Flush window probes and window announcements. */
    method EmitProbes(ptr: nat, stamp: Stamp, last: Ack, ghost base: seq<seq<byte>>, ghost ps: seq<Packet>,
                      ghost acks: seq<Ack>)
      returns (next: nat)
      requires cfg.Valid() && Written(ptr, base, ps)
      requires last == if acks == [] then Ack(0, 0) else acks[|acks| - 1]
      modifies buffer, `output, `ctl
      ensures Written(next, base, ps + ProbePackets(old(ctl), acks, stamp))
      ensures ctl == old(ctl).(askSend := false, askTell := false)
    {
      next := ptr;
      ghost var sent := ps;
      if ctl.askSend {
        next := Put(next, Packet(stamp.conv, CMD_WASK, 0, stamp.wnd, last.ts, last.sn, stamp.una, []), base, sent);
        sent := sent + [ProbePacket(CMD_WASK, acks, stamp)];
      }
      if ctl.askTell {
        next := Put(next, Packet(stamp.conv, CMD_WINS, 0, stamp.wnd, last.ts, last.sn, stamp.una, []), base, sent);
        sent := sent + [ProbePacket(CMD_WINS, acks, stamp)];
      }
      assert sent == ps + ProbePackets(ctl, acks, stamp);
      ctl := ctl.(askSend := false, askTell := false);
    }

    /** Move data from `snd_queue` to `snd_buf`. */
    method PromoteQueue(cwnd: u32, stamp: Stamp)
      requires nsndQue == |sndQueue| && nsndBuf == |sndBuf|
      modifies `sndQueue, `sndBuf, `nsndQue, `nsndBuf, `sndNxt
      ensures nsndQue == |sndQueue| && nsndBuf == |sndBuf|
      ensures Sender(sndUna, sndNxt, sndQueue, sndBuf)
           == Promote(old(Sender(sndUna, sndNxt, sndQueue, sndBuf)), cwnd, ctl.rto, stamp)
    {
      while Diff(sndNxt, Add(sndUna, cwnd)) < 0
        invariant nsndQue == |sndQueue| && nsndBuf == |sndBuf|
        invariant Promote(Sender(sndUna, sndNxt, sndQueue, sndBuf), cwnd, ctl.rto, stamp)
               == Promote(old(Sender(sndUna, sndNxt, sndQueue, sndBuf)), cwnd, ctl.rto, stamp)
        decreases |sndQueue|
      {
        if sndQueue == [] {
          break;
        }
        var newseg := sndQueue[0];
        sndQueue := sndQueue[1..];
        sndBuf := sndBuf + [Number(newseg, sndNxt, ctl.rto, stamp)];
        nsndQue := nsndQue - 1;
        nsndBuf := nsndBuf + 1;
        sndNxt := Add(sndNxt, 1);
      }
    }

    /** Whether a segment is sent in this flush, why, and what it becomes. */
    method Decide(segment: Seg, p: Policy) returns (s: Seg, why: Reason)
      ensures s == Xmit(segment, p) && why == Why(segment, p)
    {
      s, why := segment, Idle;
      var current := p.stamp.now;
      if s.xmit == 0 {
        why := First;
        s := s.(xmit := Add(s.xmit, 1));
        s := s.(rto := p.rto);
        s := s.(resendts := Add(Add(current, s.rto), p.rtomin));
      } else if Diff(current, s.resendts) >= 0 {
        why := Timeout;
        s := s.(xmit := Add(s.xmit, 1));
        if p.nodelay == 0 {
          s := s.(rto := Add(s.rto, Max(s.rto, p.rto)));
        } else {
          var step := if p.nodelay < 2 then Signed(s.rto) else p.rto;
          s := s.(rto := AddSigned(s.rto, if step >= 0 then step / 2 else -((-step) / 2)));
        }
        s := s.(resendts := Add(current, s.rto));
      } else if s.fastack >= p.resent {
        if Signed(s.xmit) <= p.fastLimit || p.fastLimit <= 0 {
          why := Fast;
          s := s.(xmit := Add(s.xmit, 1));
          s := s.(fastack := 0);
          s := s.(resendts := Add(current, s.rto));
        }
      }
      if why != Idle {
        s := s.(pkt := s.pkt.(ts := current, wnd := p.stamp.wnd, una := p.stamp.una));
      }
    }

    /** One iteration of the transmission loop. */
    method TransmitOne(ptr: nat, i: nat, p: Policy, ghost base: seq<seq<byte>>, ghost ps: seq<Packet>)
      returns (next: nat, why: Reason)
      requires cfg.Valid() && Written(ptr, base, ps) && i < |sndBuf| && |sndBuf[i].pkt.data| <= cfg.Mss()
      modifies buffer, `output, `sndBuf, `ctl
      ensures why == Why(old(sndBuf)[i], p) && sndBuf == old(sndBuf)[i := Xmit(old(sndBuf)[i], p)]
      ensures Written(next, base, ps + if why == Idle then [] else [sndBuf[i].pkt])
      ensures ctl == old(ctl).(xmit := if why == Timeout then Add(old(ctl).xmit, 1) else old(ctl).xmit,
                               dead := old(ctl).dead || (why != Idle && sndBuf[i].xmit >= cfg.deadLink))
    {
      next := ptr;
      var segment;
      segment, why := Decide(sndBuf[i], p);
      sndBuf := sndBuf[i := segment];
      if why == Timeout {
        ctl := ctl.(xmit := Add(ctl.xmit, 1));
      }
      if why != Idle {
        next := Put(ptr, segment.pkt, base, ps);
        if segment.xmit >= cfg.deadLink {
          ctl := ctl.(dead := true);
        }
      } else {
        assert ps + [] == ps;
      }
    }

    /** The transmission loop. */
    method Transmit(ptr: nat, p: Policy, ghost base: seq<seq<byte>>, ghost ps: seq<Packet>)
      returns (next: nat, change: nat, lost: bool)
      requires cfg.Valid() && Written(ptr, base, ps)
      requires forall i :: 0 <= i < |sndBuf| ==> |sndBuf[i].pkt.data| <= cfg.Mss()
      modifies buffer, `output, `sndBuf, `ctl
      ensures Written(next, base, ps + DataPackets(old(sndBuf), p))
      ensures sndBuf == XmitAll(old(sndBuf), p)
      ensures change == Tally(old(sndBuf), p, Fast) && lost == (Tally(old(sndBuf), p, Timeout) > 0)
      ensures ctl == old(ctl).(xmit := Bump(old(ctl).xmit, Tally(old(sndBuf), p, Timeout)),
                               dead := old(ctl).dead || GivesUp(old(sndBuf), p, cfg.deadLink))
    {
      hide SweepAt, Why, Xmit, XmitAll, AppendAll, Written, DataPackets, Tally, GivesUp, Bump;
      ghost var buf, ctl0, sent := sndBuf, ctl, ps;
      ghost var start := Sweep(buf, ps, 0, false, ctl.xmit, ctl.dead);
      ghost var w := SweepAt(buf, 0, p, cfg.deadLink, start);
      next, change, lost := ptr, 0, false;
      var i := 0;
      SweepStart(buf, p, cfg.deadLink, start);
      while i < |sndBuf|
        invariant 0 <= i <= |sndBuf| == |buf| && Written(next, base, sent)
        invariant ctl == ctl0.(xmit := w.xmit, dead := w.dead)
        invariant sndBuf == w.buf && sent == w.sent && change == w.change && lost == w.lost
        invariant w == SweepAt(buf, i, p, cfg.deadLink, start)
      {
        SweepStep(buf, i, p, cfg.deadLink, start);
        var why;
        next, why := TransmitOne(next, i, p, base, sent);
        sent := sent + if why == Idle then [] else [sndBuf[i].pkt];
        lost := lost || why == Timeout;
        change := if why == Fast then change + 1 else change;
        i := i + 1;
        w := SweepAt(buf, i, p, cfg.deadLink, start);
      }
      SweepEnd(buf, p, cfg.deadLink, start);
    }

    /** Fast retransmission halves the window. */
    method SettleChange(resent: u32)
      requires cfg.Valid() && mss == cfg.Mss()
      modifies `ctl
      ensures var half := Max(Off(sndNxt, sndUna) / 2, THRESH_MIN);
        ctl == old(ctl).(ssthresh := half, cwnd := Add(half, resent), incr := Times(Add(half, resent), cfg.Mss()))
    {
      var inflight := Off(sndNxt, sndUna);
      ctl := ctl.(ssthresh := inflight / 2);
      if ctl.ssthresh < THRESH_MIN {
        ctl := ctl.(ssthresh := THRESH_MIN);
      }
      ctl := ctl.(cwnd := Add(ctl.ssthresh, resent));
      ctl := ctl.(incr := Times(ctl.cwnd, mss));
    }

    /** The congestion window after the transmission loop. */
    method SettleCwnd(cwnd: u32, resent: u32, change: bool, lost: bool)
      requires cfg.Valid() && mss == cfg.Mss()
      modifies `ctl
      ensures ctl == Settle(old(ctl), cfg.Mss(), cwnd, Off(sndNxt, sndUna), resent, change, lost)
    {
      if change {
        SettleChange(resent);
      }
      if lost {
        ctl := ctl.(ssthresh := cwnd / 2);
        if ctl.ssthresh < THRESH_MIN {
          ctl := ctl.(ssthresh := THRESH_MIN);
        }
        ctl := ctl.(cwnd := 1);
        ctl := ctl.(incr := mss);
      }
      if ctl.cwnd < 1 {
        ctl := ctl.(cwnd := 1);
        ctl := ctl.(incr := mss);
      }
    }

    /** The first half of `ikcp_flush`: acknowledgements and probes. */
    method EmitControl(stamp: Stamp) returns (ptr: nat)
      requires Layout()
      modifies buffer, `output, `ackcount, `ctl
      ensures Layout() && State() == Quiet(old(State()))
      ensures Written(ptr, old(output), ControlPackets(old(State()), stamp))
    {
      hide Written, AckPackets, ProbePackets, ProbeTimer;
      var last;
      ghost var acks;
      ptr, acks, last := EmitAcks(stamp);
      ProbeWindow();
      ptr := EmitProbes(ptr, stamp, last, old(output), AckPackets(acks, stamp), acks);
    }

    /** `ikcp_wnd_unused`, cut to the 16 bits of the header. */
    method WndUnused() returns (wnd: u16)
      requires Layout()
      ensures wnd == Unused(State().rcv, cfg.rcvWnd)
    {
      wnd := if nrcvQue < cfg.rcvWnd then (cfg.rcvWnd - nrcvQue) % 0x1_0000 else 0;
    }

    /** The transmission loop of a flush, and the window it settles. */
    method TransmitAndSettle(ptr: nat, policy: Policy, cwnd: u32, ghost ps: seq<Packet>, ghost base: seq<seq<byte>>)
      requires cfg.Valid() && mss == cfg.Mss() && Written(ptr, base, ps) && cwnd == Window(cfg, ctl)
      requires forall i :: 0 <= i < |sndBuf| ==> |sndBuf[i].pkt.data| <= cfg.Mss()
      modifies buffer, `output, `ctl, `sndBuf
      ensures sndBuf == XmitAll(old(sndBuf), policy)
      ensures ctl == DataControl(cfg, old(ctl), old(sndBuf), Off(sndNxt, sndUna), policy)
      ensures output == base + Handed(AppendAll(Out([], []), ps + DataPackets(old(sndBuf), policy), cfg.mtu))
    {
      var next, change, lost := Transmit(ptr, policy, base, ps);
      Emit(next);
      SettleCwnd(cwnd, policy.resent, change > 0, lost);
    }

    /** The second half of `ikcp_flush`: number what the window admits, then transmit. */
    method EmitData(ptr: nat, stamp: Stamp, ghost ps: seq<Packet>, ghost base: seq<seq<byte>>)
      requires Layout() && Stocked(cfg, State().snd) && Written(ptr, base, ps) && stamp.conv == cfg.conv
      modifies buffer, `output, `ctl, `sndQueue, `sndBuf, `nsndQue, `nsndBuf, `sndNxt
      ensures Layout() && State() == SendData(old(State()), stamp)
      ensures var k := old(State());
        output == base + Handed(AppendAll(Out([], []),
          ps + DataPackets(DataSegs(k, stamp).buf, DataPolicy(k, stamp)), cfg.mtu))
    {
      hide AppendAll, Written, DataPackets, Promote, Settle, Tally, GivesUp, Bump, XmitAll, Handed;
      ghost var k := State();
      PromoteStocked(cfg, k.snd, Window(cfg, ctl), ctl.rto, stamp);
      var cwnd := Min(cfg.sndWnd, ctl.rmtWnd);
      if !cfg.noCwnd {
        cwnd := Min(ctl.cwnd, cwnd);
      }
      PromoteQueue(cwnd, stamp);
      var policy := Policy(stamp, ctl.rto, if cfg.nodelay == 0 then ctl.rto / 8 else 0,
                           if cfg.fastResend > 0 then cfg.fastResend else WORD - 1, cfg.nodelay, cfg.fastLimit);
      assert State() == k.(snd := DataSegs(k, stamp)) && policy == DataPolicy(k, stamp);
      assert forall i :: 0 <= i < |sndBuf| ==> StockedSeg(cfg, sndBuf[i]);
      TransmitAndSettle(ptr, policy, cwnd, ps, base);
    }

    /** The body of `ikcp_flush`, once `ikcp_update` has been called. */
    method FlushAll()
      requires Layout() && Stocked(cfg, State().snd)
      modifies buffer, `output, `ackcount, `ctl, `sndQueue, `sndBuf, `nsndQue, `nsndBuf, `sndNxt
      ensures Layout() && State() == FlushState(old(State()))
      ensures output == old(output) + Handed(AppendAll(Out([], []), FlushPackets(old(State())), cfg.mtu))
    {
      ghost var k := State();
      FlushInTwo(k);
      var wnd := WndUnused();
      var stamp := Stamp(cfg.conv, wnd, rcvNxt, ctl.current);
      var ptr := EmitControl(stamp);
      EmitData(ptr, stamp, ControlPackets(k, stamp), old(output));
    }

    /** `ikcp_flush`. */
    method Flush()
      requires Valid()
      modifies buffer, `output, `ackcount, `ctl, `sndQueue, `sndBuf, `nsndQue, `nsndBuf, `sndNxt
      ensures Valid() && State() == KcpSpec.Flush(old(State())).0
      ensures output == old(output) + KcpSpec.Flush(old(State())).1
    {
      ghost var k := State();
      if !ctl.updated {
        return;
      }
      FlushKeepsInv(k);
      FlushStocked(k);
      FlushAll();
    }

    /** The clock and the flush timer of `ikcp_update`. */
    method AdvanceClock(now: u32) returns (due: bool)
      modifies `ctl
      ensures (ctl, due) == Tick(old(ctl), cfg.interval, now)
    {
      ctl := ctl.(current := now);
      if !ctl.updated {
        ctl := ctl.(updated := true, tsFlush := now);
      }
      var slap := Diff(now, ctl.tsFlush);
      if slap >= 10000 || slap < -10000 {
        ctl := ctl.(tsFlush := now);
        slap := 0;
      }
      due := slap >= 0;
      if due {
        ctl := ctl.(tsFlush := Add(ctl.tsFlush, cfg.interval));
        if Diff(now, ctl.tsFlush) >= 0 {
          ctl := ctl.(tsFlush := Add(now, cfg.interval));
        }
      }
    }

    /** `ikcp_update`. */
    method Update(now: u32)
      requires Valid()
      modifies buffer, `output, `ackcount, `ctl, `sndQueue, `sndBuf, `nsndQue, `nsndBuf, `sndNxt
      ensures Valid() && State() == KcpSpec.Update(old(State()), now).0
      ensures output == old(output) + KcpSpec.Update(old(State()), now).1
    {
      ghost var k := State();
      var due := AdvanceClock(now);
      assert State() == k.(ctl := Tick(k.ctl, cfg.interval, now).0);
      if due {
        Flush();
      }
    }
  }
}
