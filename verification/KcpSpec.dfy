/** The state of one KCP endpoint as a value, and what each call of ikcp.c does to it. */
module KcpSpec {
  import opened Basics
  import opened KcpWire

  const WND_RCV: int := 128
  const RTO_MAX: u32 := 60000
  const PROBE_INIT: u32 := 7000
  const PROBE_LIMIT: u32 := 120000
  const THRESH_MIN: u32 := 2

  /** Everything a caller fixes before the conversation starts. */
  datatype Config = Config(conv: u32, mtu: u32, sndWnd: u32, rcvWnd: u32, interval: u32, nodelay: u32,
                           minRto: u32, deadLink: u32, fastResend: i32, fastLimit: i32, noCwnd: bool)
  {
    function Mss(): u32 { if mtu < OVERHEAD then 0 else mtu - OVERHEAD }

    /** The bounds `ikcp_setmtu` and `ikcp_wndsize` enforce, and windows below half the word ring. */
    predicate Valid() {
      50 <= mtu && (mtu + OVERHEAD) * 3 < HALF && 0 < sndWnd < HALF && WND_RCV <= rcvWnd < HALF
    }
  }

  /** A piece of a message waiting to be numbered; `frg` counts the pieces after it. */
  datatype Frag = Frag(frg: byte, data: payload)

  /** A numbered segment waiting to be acknowledged. */
  datatype Seg = Seg(pkt: Packet, resendts: u32, rto: u32, fastack: u32, xmit: u32)

  datatype Ack = Ack(sn: u32, ts: u32)

  datatype Sender = Sender(una: u32, nxt: u32, queue: seq<Frag>, buf: seq<Seg>)

  datatype Receiver = Receiver(nxt: u32, queue: seq<Packet>, buf: seq<Packet>, acks: seq<Ack>)

  /** Clocks, probe flags and congestion control: nothing here decides what is delivered. */
  datatype Control = Control(current: u32, updated: bool, tsFlush: u32, tsProbe: u32, probeWait: u32,
                             askSend: bool, askTell: bool, rmtWnd: u32, cwnd: u32, incr: u32, ssthresh: u32,
                             srtt: int, rttval: int, rto: u32, xmit: u32, dead: bool)

  datatype Kcp = Kcp(cfg: Config, snd: Sender, rcv: Receiver, ctl: Control)

  /** `ikcp_create`, with the configuration already applied. */
  function Create(cfg: Config): Kcp {
    Kcp(cfg, Sender(0, 0, [], []), Receiver(0, [], [], []),
        Control(0, false, 100, 0, 0, false, false, 128, 0, 0, 2, 0, 0, 200, 0, false))
  }

  // ----- sending side: acknowledgements -----

  /** `ikcp_parse_una`: drop segments from the front while they lie before `una`. */
  function DropUna(buf: seq<Seg>, una: u32): seq<Seg> {
    if buf == [] || Diff(una, buf[0].pkt.sn) <= 0 then buf else DropUna(buf[1..], una)
  }

  /** The search loop of `ikcp_parse_ack`. */
  function RemoveAck(buf: seq<Seg>, sn: u32): seq<Seg> {
    if buf == [] || (sn != buf[0].pkt.sn && Diff(sn, buf[0].pkt.sn) < 0) then buf
    else if sn == buf[0].pkt.sn then buf[1..]
    else [buf[0]] + RemoveAck(buf[1..], sn)
  }

  /** The loop of `ikcp_parse_fastack`: count one more acknowledgement that overtook each earlier segment. */
  function CountSkips(buf: seq<Seg>, sn: u32): seq<Seg> {
    if buf == [] || Diff(sn, buf[0].pkt.sn) < 0 then buf
    else
      var head := if sn != buf[0].pkt.sn then buf[0].(fastack := Add(buf[0].fastack, 1)) else buf[0];
      [head] + CountSkips(buf[1..], sn)
  }

  predicate InFlight(s: Sender, sn: u32) {
    Diff(sn, s.una) >= 0 && Diff(sn, s.nxt) < 0
  }

  /** `ikcp_shrink_buf`. */
  function Shrink(s: Sender): Sender {
    s.(una := if s.buf != [] then s.buf[0].pkt.sn else s.nxt)
  }

  function TakeUna(s: Sender, una: u32): Sender {
    Shrink(s.(buf := DropUna(s.buf, una)))
  }

  function TakeAck(s: Sender, sn: u32): Sender {
    Shrink(if InFlight(s, sn) then s.(buf := RemoveAck(s.buf, sn)) else s)
  }

  function TakeFastack(s: Sender, sn: u32): Sender {
    if InFlight(s, sn) then s.(buf := CountSkips(s.buf, sn)) else s
  }

  /** `ikcp_update_ack`, for a round-trip time that is not negative. */
  function TakeRtt(c: Control, cfg: Config, rtt: int): Control {
    var delta := if rtt < c.srtt then c.srtt - rtt else rtt - c.srtt;
    var rttval := if c.srtt == 0 then rtt / 2 else (3 * c.rttval + delta) / 4;
    var smooth := (7 * c.srtt + rtt) / 8;
    var srtt := if c.srtt == 0 then rtt else if smooth < 1 then 1 else smooth;
    var rto := Wrap(srtt + Max(cfg.interval, Wrap(4 * rttval)));
    c.(srtt := srtt, rttval := rttval, rto := Min(Max(cfg.minRto, rto), RTO_MAX))
  }

  /** The congestion-window growth at the end of `ikcp_input`. */
  function Grow(c: Control, mss: u32): Control
    requires mss > 0
  {
    if c.cwnd >= c.rmtWnd then c
    else
      var g := if c.cwnd < c.ssthresh then c.(cwnd := Add(c.cwnd, 1), incr := Add(c.incr, mss))
               else
                 var incr0 := if c.incr < mss then mss else c.incr;
                 var incr1 := Add(Add(incr0, Quotient(Times(mss, mss), incr0)), mss / 16);
                 c.(incr := incr1,
                    cwnd := if Times(Add(c.cwnd, 1), mss) <= incr1 then Quotient(Off(Add(incr1, mss), 1), mss)
                      else c.cwnd);
      if g.cwnd > g.rmtWnd then g.(cwnd := g.rmtWnd, incr := Times(g.rmtWnd, mss)) else g
  }

  // ----- receiving side -----

  /** The backward search of `ikcp_parse_data`: keep the buffer ordered, ignore a repeated number. */
  function Insert(buf: seq<Packet>, p: Packet): seq<Packet> {
    if buf == [] then [p]
    else
      var last := buf[|buf| - 1];
      if last.sn == p.sn then buf
      else if Diff(p.sn, last.sn) > 0 then buf + [p]
      else Insert(buf[..|buf| - 1], p) + [last]
  }

  /** Move available data from the buffer to the queue of received segments. */
  function Drain(r: Receiver, wnd: u32): Receiver
    decreases |r.buf|
  {
    if r.buf != [] && r.buf[0].sn == r.nxt && |r.queue| < wnd then
      Drain(r.(buf := r.buf[1..], queue := r.queue + [r.buf[0]], nxt := Add(r.nxt, 1)), wnd)
    else r
  }

  /** `ikcp_parse_data`. */
  function ParseData(r: Receiver, p: Packet, wnd: u32): Receiver {
    if Diff(p.sn, Add(r.nxt, wnd)) >= 0 || Diff(p.sn, r.nxt) < 0 then r
    else Drain(r.(buf := Insert(r.buf, p)), wnd)
  }

  /** What a PUSH segment does: acknowledge anything before the window's end, keep what is new. */
  function TakePush(r: Receiver, p: Packet, wnd: u32): Receiver {
    if Diff(p.sn, Add(r.nxt, wnd)) >= 0 then r
    else
      var acked := r.(acks := r.acks + [Ack(p.sn, p.ts)]);
      if Diff(p.sn, r.nxt) >= 0 then ParseData(acked, p, wnd) else acked
  }

  // ----- ikcp_input -----

  /** The variables of the loop of `ikcp_input`. */
  datatype Scan = Scan(k: Kcp, flag: bool, maxack: u32)

  /** One iteration of the loop of `ikcp_input`, on a segment that passed the checks. */
  function Take(st: Scan, p: Packet): Scan {
    var k := st.k;
    var snd := TakeUna(k.snd, p.una);
    var ctl := k.ctl.(rmtWnd := p.wnd);
    if p.cmd == CMD_ACK then
      var rtt := Diff(ctl.current, p.ts);
      var ctl' := if rtt >= 0 then TakeRtt(ctl, k.cfg, rtt) else ctl;
      var maxack := if !st.flag || Diff(p.sn, st.maxack) > 0 then p.sn else st.maxack;
      Scan(k.(snd := TakeAck(snd, p.sn), ctl := ctl'), true, maxack)
    else if p.cmd == CMD_PUSH then
      st.(k := k.(snd := snd, ctl := ctl, rcv := TakePush(k.rcv, p, k.cfg.rcvWnd)))
    else if p.cmd == CMD_WASK then
      st.(k := k.(snd := snd, ctl := ctl.(askTell := true)))
    else
      st.(k := k.(snd := snd, ctl := ctl))
  }

  function TakeAll(st: Scan, ps: seq<Packet>): Scan
    decreases |ps|
  {
    if ps == [] then st else TakeAll(Take(st, ps[0]), ps[1..])
  }

  /** The two updates after the loop of `ikcp_input`. */
  function FinishInput(st: Scan, una: u32): Kcp
    requires st.k.cfg.Valid()
  {
    var k := if st.flag then st.k.(snd := TakeFastack(st.k.snd, st.maxack)) else st.k;
    if Diff(k.snd.una, una) > 0 then k.(ctl := Grow(k.ctl, k.cfg.Mss())) else k
  }

  lemma {:induction false} TakeAllKeepsConfig(st: Scan, ps: seq<Packet>)
    ensures TakeAll(st, ps).k.cfg == st.k.cfg
    decreases |ps|
  {
    if ps != [] {
      TakeAllKeepsConfig(Take(st, ps[0]), ps[1..]);
    }
  }

  /** `ikcp_input`: the new state and the return code. */
  function Input(k: Kcp, data: seq<byte>): (Kcp, int)
    requires k.cfg.Valid()
  {
    if |data| < OVERHEAD then (k, -1)
    else
      var parsed := Parse(k.cfg.conv, data);
      var st := TakeAll(Scan(k, false, 0), parsed.packets);
      TakeAllKeepsConfig(Scan(k, false, 0), parsed.packets);
      if parsed.code < 0 then (st.k, parsed.code) else (FinishInput(st, k.snd.una), 0)
  }

  // ----- ikcp_recv -----

  /** How many segments the merge loop takes: up to the first last-piece, or all of them. */
  function FragCount(queue: seq<Packet>): (n: nat)
    ensures n <= |queue|
  {
    if queue == [] then 0 else if queue[0].frg == 0 then 1 else 1 + FragCount(queue[1..])
  }

  function Merge(ps: seq<Packet>): seq<byte> {
    if ps == [] then [] else ps[0].data + Merge(ps[1..])
  }

  /** `ikcp_peeksize`. */
  function PeekSize(queue: seq<Packet>): int {
    if queue == [] then -1
    else if queue[0].frg == 0 then |queue[0].data|
    else if |queue| < queue[0].frg as int + 1 then -1
    else |Merge(queue[..FragCount(queue)])|
  }

  /** `ikcp_recv`: the new state, the return code and the bytes copied out; a negative `len` peeks. */
  function Recv(k: Kcp, len: int): (Kcp, int, seq<byte>) {
    var queue := k.rcv.queue;
    var size := PeekSize(queue);
    if queue == [] then (k, -1, [])
    else if size < 0 then (k, -2, [])
    else if size > (if len < 0 then -len else len) then (k, -3, [])
    else
      var n := FragCount(queue);
      var kept := if len < 0 then queue else queue[n..];
      var rcv := Drain(k.rcv.(queue := kept), k.cfg.rcvWnd);
      var tell := k.ctl.askTell || (|queue| >= k.cfg.rcvWnd && |rcv.queue| < k.cfg.rcvWnd);
      (k.(rcv := rcv, ctl := k.ctl.(askTell := tell)), size, Merge(queue[..n]))
  }

  // ----- ikcp_send -----

  /** The number of pieces a message is cut into. */
  function FragTotal(len: nat, mss: u32): (n: nat)
    requires mss > 0
    ensures n > 0
  {
    if len <= mss then 1 else 1 + FragTotal(len - mss, mss)
  }

  lemma {:induction false} FragTotalCovers(len: nat, mss: u32)
    requires mss > 0
    ensures len <= FragTotal(len, mss) * mss
    ensures len > mss ==> (FragTotal(len, mss) - 1) * mss < len
  {
    if len > mss {
      FragTotalCovers(len - mss, mss);
      var n := FragTotal(len - mss, mss);
      assert (n + 1) * mss == n * mss + mss;
      if len - mss > mss {
        assert n * mss == (n - 1) * mss + mss;
      } else {
        assert n * mss == mss;
      }
    }
  }

  /** The count `ikcp_send` computes by rounding up a division. */
  lemma {:induction false} FragTotalIsCeiling(len: nat, mss: u32)
    requires 0 < mss < len
    ensures FragTotal(len, mss) == (len + mss - 1) / mss
  {
    FragTotalCovers(len, mss);
    var n, x := FragTotal(len, mss), len + mss - 1;
    assert (n - 1) * mss == n * mss - mss;
    Floor(x, mss, n);
  }

  lemma {:induction false} Floor(x: int, b: int, n: int)
    requires b > 0 && n * b <= x < n * b + b
    ensures x / b == n
  {
    var q, r := x / b, x % b;
    assert x == q * b + r;
    assert (q + 1) * b == q * b + b && (n + 1) * b == n * b + b;
    if q < n {
      MulMono(q + 1, n, b);
    } else if n < q {
      MulMono(n + 1, q, b);
    }
  }

  lemma {:induction false} MulMono(x: int, y: int, b: int)
    requires x <= y && b > 0
    ensures x * b <= y * b
  {
    assert y * b - x * b == (y - x) * b;
  }

  /** The fragment loop of `ikcp_send`: `count` pieces of at most `mss` bytes, numbered down to 0. */
  function Fragments(data: seq<byte>, mss: u32, count: nat): (fs: seq<Frag>)
    requires mss > 0 && count <= 256
    ensures |fs| == count
    decreases count
  {
    if count == 0 then []
    else
      var size := if |data| > mss then mss else |data|;
      [Frag(count - 1, data[..size])] + Fragments(data[size..], mss, count - 1)
  }

  /** `ikcp_send` in message mode: the new state and the return code. */
  function Send(k: Kcp, buffer: seq<byte>, len: int): (Kcp, int)
    requires k.cfg.Valid() && len <= |buffer|
  {
    if len < 0 then (k, -1)
    else
      var count := FragTotal(len, k.cfg.Mss());
      if count >= WND_RCV then (k, -2)
      else (k.(snd := k.snd.(queue := k.snd.queue + Fragments(buffer[..len], k.cfg.Mss(), count))), 0)
  }

  // ----- ikcp_flush -----

  /** What a flush stamps on every segment it emits. */
  datatype Stamp = Stamp(conv: u32, wnd: u16, una: u32, now: u32)

  /** `ikcp_wnd_unused`, then cut to the 16 bits of the header. */
  function Unused(r: Receiver, wnd: u32): u16 {
    if |r.queue| < wnd then (wnd - |r.queue|) % 0x1_0000 else 0
  }

  function StampOf(k: Kcp): Stamp {
    Stamp(k.cfg.conv, Unused(k.rcv, k.cfg.rcvWnd), k.rcv.nxt, k.ctl.current)
  }

  function AckPackets(acks: seq<Ack>, s: Stamp): (ps: seq<Packet>)
    ensures |ps| == |acks|
  {
    seq(|acks|, i requires 0 <= i < |acks| => Packet(s.conv, CMD_ACK, 0, s.wnd, acks[i].ts, acks[i].sn, s.una, []))
  }

  /** Probe segments reuse the header of the last acknowledgement, its numbers included. */
  function ProbePacket(cmd: byte, acks: seq<Ack>, s: Stamp): Packet {
    var last := if acks == [] then Ack(0, 0) else acks[|acks| - 1];
    Packet(s.conv, cmd, 0, s.wnd, last.ts, last.sn, s.una, [])
  }

  /** The window-probe timer. */
  function ProbeTimer(c: Control): Control {
    if c.rmtWnd != 0 then c.(tsProbe := 0, probeWait := 0)
    else if c.probeWait == 0 then c.(probeWait := PROBE_INIT, tsProbe := Add(c.current, PROBE_INIT))
    else if Diff(c.current, c.tsProbe) < 0 then c
    else
      var base := if c.probeWait < PROBE_INIT then PROBE_INIT else c.probeWait;
      var longer := Add(base, base / 2);
      var wait := if longer > PROBE_LIMIT then PROBE_LIMIT else longer;
      c.(probeWait := wait, tsProbe := Add(c.current, wait), askSend := true)
  }

  function ProbePackets(c: Control, acks: seq<Ack>, s: Stamp): seq<Packet> {
    (if c.askSend then [ProbePacket(CMD_WASK, acks, s)] else []) +
    (if c.askTell then [ProbePacket(CMD_WINS, acks, s)] else [])
  }

  function Window(cfg: Config, c: Control): u32 {
    var w := Min(cfg.sndWnd, c.rmtWnd);
    if cfg.noCwnd then w else Min(c.cwnd, w)
  }

  function Number(f: Frag, sn: u32, rto: u32, s: Stamp): Seg {
    Seg(Packet(s.conv, CMD_PUSH, f.frg, s.wnd, s.now, sn, s.una, f.data), s.now, rto, 0, 0)
  }

  /** Move data from the queue to the buffer while the window has room. */
  function Promote(s: Sender, cwnd: u32, rto: u32, stamp: Stamp): Sender
    decreases |s.queue|
  {
    if s.queue == [] || Diff(s.nxt, Add(s.una, cwnd)) >= 0 then s
    else
      Promote(s.(queue := s.queue[1..], buf := s.buf + [Number(s.queue[0], s.nxt, rto, stamp)], nxt := Add(s.nxt, 1)),
              cwnd, rto, stamp)
  }

  /** What the transmission loop reads besides the segment. */
  datatype Policy = Policy(stamp: Stamp, rto: u32, rtomin: u32, resent: u32, nodelay: u32, fastLimit: i32)

  datatype Reason = Idle | First | Timeout | Fast

  function Why(g: Seg, p: Policy): Reason {
    if g.xmit == 0 then First
    else if Diff(p.stamp.now, g.resendts) >= 0 then Timeout
    else if g.fastack >= p.resent && (Signed(g.xmit) <= p.fastLimit || p.fastLimit <= 0) then Fast
    else Idle
  }

  /** A word cast to a signed integer. */
  function Signed(x: u32): int {
    if x < HALF then x else x - WORD
  }

  /** The back-off of the retransmission timer: signed division truncates toward zero. */
  function Backoff(rto: u32, p: Policy): u32 {
    if p.nodelay == 0 then Add(rto, Max(rto, p.rto))
    else
      var step := if p.nodelay < 2 then Signed(rto) else p.rto;
      AddSigned(rto, if step >= 0 then step / 2 else -((-step) / 2))
  }

  /** One iteration of the transmission loop. */
  function Xmit(g: Seg, p: Policy): Seg {
    var now := p.stamp.now;
    var sent := g.(pkt := g.pkt.(ts := now, wnd := p.stamp.wnd, una := p.stamp.una), xmit := Add(g.xmit, 1));
    match Why(g, p)
    case Idle => g
    case First => sent.(rto := p.rto, resendts := Add(Add(now, p.rto), p.rtomin))
    case Timeout => sent.(rto := Backoff(g.rto, p), resendts := Add(now, Backoff(g.rto, p)))
    case Fast => sent.(fastack := 0, resendts := Add(now, g.rto))
  }

  function XmitAll(buf: seq<Seg>, p: Policy): (r: seq<Seg>)
    ensures |r| == |buf|
  {
    seq(|buf|, i requires 0 <= i < |buf| => Xmit(buf[i], p))
  }

  /** The data segments the transmission loop emits, in order. */
  function DataPackets(buf: seq<Seg>, p: Policy): seq<Packet> {
    if buf == [] then []
    else
      var last := buf[|buf| - 1];
      DataPackets(buf[..|buf| - 1], p) + (if Why(last, p) == Idle then [] else [Xmit(last, p).pkt])
  }

  /** How many segments of `buf` are sent for reason `why`. */
  function Tally(buf: seq<Seg>, p: Policy, why: Reason): nat {
    if buf == [] then 0
    else Tally(buf[..|buf| - 1], p, why) + (if Why(buf[|buf| - 1], p) == why then 1 else 0)
  }

  /** Some segment was sent for at least the `deadLink`-th time. */
  predicate GivesUp(buf: seq<Seg>, p: Policy, deadLink: u32) {
    exists i :: 0 <= i < |buf| && Why(buf[i], p) != Idle && Xmit(buf[i], p).xmit >= deadLink
  }

  function PolicyOf(k: Kcp): Policy {
    Policy(StampOf(k), k.ctl.rto, if k.cfg.nodelay == 0 then k.ctl.rto / 8 else 0,
           if k.cfg.fastResend > 0 then k.cfg.fastResend else WORD - 1, k.cfg.nodelay, k.cfg.fastLimit)
  }

  /** The congestion window after the transmission loop. */
  function Settle(c: Control, mss: u32, cwnd: u32, inflight: u32, resent: u32, change: bool, lost: bool): Control
    requires mss > 0
  {
    var c1 := if !change then c
              else
                var half := Max(inflight / 2, THRESH_MIN);
                c.(ssthresh := half, cwnd := Add(half, resent), incr := Times(Add(half, resent), mss));
    var c2 := if !lost then c1 else c1.(ssthresh := Max(cwnd / 2, THRESH_MIN), cwnd := 1, incr := mss);
    if c2.cwnd < 1 then c2.(cwnd := 1, incr := mss) else c2
  }

  /** The output buffer: the datagrams handed to the network and the bytes not yet handed over. */
  datatype Out = Out(done: seq<seq<byte>>, cur: seq<byte>)

  /** Append one segment, first sending what is there if the segment does not fit. */
  function Append(o: Out, bytes: seq<byte>, mtu: u32): Out {
    if |o.cur| + |bytes| > mtu then Out(Handed(o), bytes) else Out(o.done, o.cur + bytes)
  }

  /** `ikcp_output` never sends an empty datagram. */
  function Handed(o: Out): seq<seq<byte>> {
    if o.cur == [] then o.done else o.done + [o.cur]
  }

  function AppendAll(o: Out, ps: seq<Packet>, mtu: u32): Out
  {
    if ps == [] then o
    else Append(AppendAll(o, ps[..|ps| - 1], mtu), Encode(ps[|ps| - 1]), mtu)
  }

  /** The sender after a flush has numbered what fits the window, before transmitting. */
  function Promoted(k: Kcp): Sender {
    Promote(k.snd, Window(k.cfg, k.ctl), k.ctl.rto, StampOf(k))
  }

  /** Every segment a flush emits: acknowledgements, probes, data. */
  function FlushPackets(k: Kcp): seq<Packet> {
    AckPackets(k.rcv.acks, StampOf(k)) + ProbePackets(ProbeTimer(k.ctl), k.rcv.acks, StampOf(k)) +
    DataPackets(Promoted(k).buf, PolicyOf(k))
  }

  /** The state `ikcp_flush` leaves behind. */
  function FlushState(k: Kcp): Kcp
    requires k.cfg.Valid()
  {
    var s, p := Promoted(k), PolicyOf(k);
    var c := ProbeTimer(k.ctl).(askSend := false, askTell := false);
    var c1 := c.(xmit := Bump(c.xmit, Tally(s.buf, p, Timeout)), dead := c.dead || GivesUp(s.buf, p, k.cfg.deadLink));
    k.(snd := s.(buf := XmitAll(s.buf, p)), rcv := k.rcv.(acks := []),
       ctl := Settle(c1, k.cfg.Mss(), Window(k.cfg, k.ctl), Off(s.nxt, s.una), p.resent,
                     Tally(s.buf, p, Fast) > 0, Tally(s.buf, p, Timeout) > 0))
  }

  /** `ikcp_update` before it decides whether to flush: the clock and the flush timer. */
  function Tick(c: Control, interval: u32, now: u32): (Control, bool) {
    var c1 := c.(current := now, updated := true, tsFlush := if c.updated then c.tsFlush else now);
    var slap := Diff(now, c1.tsFlush);
    var base := if slap >= 10000 || slap < -10000 then now else c1.tsFlush;
    if Diff(now, base) < 0 then (c1.(tsFlush := base), false)
    else
      var next := Add(base, interval);
      (c1.(tsFlush := if Diff(now, next) >= 0 then Add(now, interval) else next), true)
  }

  // ----- what makes a flush sendable -----

  /** Every payload fits one datagram, and numbered segments carry the header of a data segment. */
  predicate Stocked(cfg: Config, s: Sender) {
    && (forall i :: 0 <= i < |s.queue| ==> |s.queue[i].data| <= cfg.Mss())
    && (forall i :: 0 <= i < |s.buf| ==> StockedSeg(cfg, s.buf[i]))
  }

  predicate StockedSeg(cfg: Config, g: Seg) {
    |g.pkt.data| <= cfg.Mss() && g.pkt.conv == cfg.conv && g.pkt.cmd == CMD_PUSH
  }

  lemma {:induction false} PromoteStocked(cfg: Config, s: Sender, cwnd: u32, rto: u32, stamp: Stamp)
    requires Stocked(cfg, s) && stamp.conv == cfg.conv
    ensures Stocked(cfg, Promote(s, cwnd, rto, stamp))
    decreases |s.queue|
  {
    if s.queue != [] && Diff(s.nxt, Add(s.una, cwnd)) < 0 {
      var s' := s.(queue := s.queue[1..], buf := s.buf + [Number(s.queue[0], s.nxt, rto, stamp)], nxt := Add(s.nxt, 1));
      assert Stocked(cfg, s');
      PromoteStocked(cfg, s', cwnd, rto, stamp);
    }
  }

  /** The transmission loop emits the updated copies of exactly the segments it has a reason to send. */
  lemma {:induction false} DataPacketsAre(buf: seq<Seg>, p: Policy)
    ensures forall q :: q in DataPackets(buf, p) <==>
      exists i :: 0 <= i < |buf| && Why(buf[i], p) != Idle && q == Xmit(buf[i], p).pkt
  {
    if buf != [] {
      var init, last := buf[..|buf| - 1], buf[|buf| - 1];
      DataPacketsAre(init, p);
      assert forall i :: 0 <= i < |init| ==> buf[i] == init[i];
      forall q
        ensures q in DataPackets(buf, p) <==>
          exists i :: 0 <= i < |buf| && Why(buf[i], p) != Idle && q == Xmit(buf[i], p).pkt
      {
        if q in DataPackets(init, p) {
          var i :| 0 <= i < |init| && Why(init[i], p) != Idle && q == Xmit(init[i], p).pkt;
          assert buf[i] == init[i];
        }
        if i :| 0 <= i < |buf| && Why(buf[i], p) != Idle && q == Xmit(buf[i], p).pkt {
          if i < |init| {
            assert init[i] == buf[i];
          }
        }
      }
    }
  }

  /** A flush puts only well-formed segments on the wire, each small enough for one datagram. */
  lemma {:induction false} FlushSendable(k: Kcp)
    requires k.cfg.Valid() && Stocked(k.cfg, k.snd)
    ensures AllSendable(k.cfg.conv, FlushPackets(k))
    ensures forall i :: 0 <= i < |FlushPackets(k)| ==> OVERHEAD + |FlushPackets(k)[i].data| <= k.cfg.mtu
  {
    PromoteStocked(k.cfg, k.snd, Window(k.cfg, k.ctl), k.ctl.rto, StampOf(k));
    var buf, p, ps := Promoted(k).buf, PolicyOf(k), FlushPackets(k);
    DataPacketsAre(buf, p);
    forall i | 0 <= i < |ps| ensures Sendable(k.cfg.conv, ps[i]) && OVERHEAD + |ps[i].data| <= k.cfg.mtu {
      if ps[i] in DataPackets(buf, p) {
        var j :| 0 <= j < |buf| && Why(buf[j], p) != Idle && ps[i] == Xmit(buf[j], p).pkt;
        assert StockedSeg(k.cfg, buf[j]);
      }
    }
  }

  // ----- ikcp_flush and ikcp_update -----

  /** `ikcp_flush`: the new state and the datagrams handed to the network. */
  function Flush(k: Kcp): (Kcp, seq<seq<byte>>)
    requires k.cfg.Valid() && Stocked(k.cfg, k.snd)
  {
    FlushSendable(k);
    if !k.ctl.updated then (k, [])
    else (FlushState(k), Handed(AppendAll(Out([], []), FlushPackets(k), k.cfg.mtu)))
  }

  /** `ikcp_update`. */
  function Update(k: Kcp, now: u32): (Kcp, seq<seq<byte>>)
    requires k.cfg.Valid() && Stocked(k.cfg, k.snd)
  {
    var (c, due) := Tick(k.ctl, k.cfg.interval, now);
    if due then Flush(k.(ctl := c)) else (k.(ctl := c), [])
  }
}
