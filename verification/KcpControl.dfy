/** What congestion control and the timers keep: bounds that hold from `ikcp_create` on, whatever arrives. */
module KcpControl {
  import opened Basics
  import opened KcpWire
  import opened KcpSpec
  import opened KcpSystem

  const RTO_DEF: u32 := 200

  /** The timeout is 200 or between its minimum and 60000, the probe wait 0 or between 7000 and 120000, and the
      threshold of slow start never below 2. */
  predicate Bounded(cfg: Config, c: Control) {
    && 0 < cfg.minRto
    && (c.rto == RTO_DEF || Min(cfg.minRto, RTO_MAX) <= c.rto <= RTO_MAX)
    && (c.probeWait == 0 || PROBE_INIT <= c.probeWait <= PROBE_LIMIT)
    && THRESH_MIN <= c.ssthresh && 0 <= c.srtt && 0 <= c.rttval
  }

  /** A segment sent `xmit` times waits at most 60000 doubled at each time but the first. */
  predicate Patient(g: Seg) {
    0 < g.xmit <= 16 ==> 0 < g.rto <= RTO_MAX * TwoTo(g.xmit - 1)
  }

  /** Until a round trip has been measured, timeout and estimates are the initial ones; from then on the timeout is
      between its minimum and 60000. */
  predicate Estimated(cfg: Config, c: Control, measured: bool) {
    if measured then Min(cfg.minRto, RTO_MAX) <= c.rto <= RTO_MAX
    else c.rto == RTO_DEF && c.srtt == 0 && c.rttval == 0
  }

  predicate AllPatient(buf: seq<Seg>) {
    forall i :: 0 <= i < |buf| ==> Patient(buf[i])
  }

  predicate Steady(k: Kcp) {
    Bounded(k.cfg, k.ctl) && AllPatient(k.snd.buf)
  }

  lemma {:induction false} CreateSteady(cfg: Config)
    requires 0 < cfg.minRto
    ensures Steady(Create(cfg))
  {
  }

  // ----- round-trip times -----

  /** The smoothed time lies between the last one and the one measured, or is 1; the timeout is within its bounds. */
  lemma {:induction false} RttSmooths(c: Control, cfg: Config, rtt: int)
    requires Bounded(cfg, c) && 0 <= rtt
    ensures var c' := TakeRtt(c, cfg, rtt);
      && Bounded(cfg, c') && Min(cfg.minRto, RTO_MAX) <= c'.rto <= RTO_MAX
      && (c.srtt != 0 ==> (c.srtt <= c'.srtt <= rtt || rtt <= c'.srtt <= c.srtt || c'.srtt == 1))
      && (c.srtt == 0 ==> c'.srtt == rtt)
  {
  }

  lemma {:induction false} SmallWraps(x: int)
    requires 0 <= x < WORD
    ensures Wrap(x) == x
  {
  }

  lemma {:induction false} VarianceWithin(c: Control, rtt: int, most: int)
    requires 0 <= c.srtt <= most && 0 <= c.rttval <= most && 0 <= rtt <= most
    ensures var delta := if rtt < c.srtt then c.srtt - rtt else rtt - c.srtt;
      0 <= rtt / 2 <= most && 0 <= (3 * c.rttval + delta) / 4 <= most
  {
  }

  lemma {:induction false} SmoothWithin(c: Control, rtt: int, most: int)
    requires 0 <= c.srtt <= most && 0 <= rtt <= most
    ensures 0 <= (7 * c.srtt + rtt) / 8 <= most
  {
  }

  /** With times below 2^28 every sum of the estimator fits a signed word, so nothing wraps. */
  lemma {:induction false} RttFits(c: Control, cfg: Config, rtt: int, most: int)
    requires 0 <= c.srtt <= most && 0 <= c.rttval <= most && 0 <= rtt <= most && 0 < most < 0x1000_0000
    requires cfg.interval <= 5000
    ensures var c' := TakeRtt(c, cfg, rtt);
      && 0 <= c'.srtt <= most && 0 <= c'.rttval <= most
      && 7 * c.srtt + rtt < HALF && 3 * c.rttval + most < HALF
      && c'.rto == Min(Max(cfg.minRto, c'.srtt + Max(cfg.interval, 4 * c'.rttval)), RTO_MAX)
  {
    VarianceWithin(c, rtt, most);
    SmoothWithin(c, rtt, most);
    SmallWraps(4 * TakeRtt(c, cfg, rtt).rttval);
    SmallWraps(TakeRtt(c, cfg, rtt).srtt + Max(cfg.interval, 4 * TakeRtt(c, cfg, rtt).rttval));
    hide Wrap;
  }

  // ----- the receiving call -----

  /** Nothing in the bounds depends on clocks, flags or windows. */
  lemma {:induction false} FlagsFree(cfg: Config, c: Control, c': Control)
    requires Bounded(cfg, c)
    requires c'.rto == c.rto && c'.probeWait == c.probeWait && c'.ssthresh == c.ssthresh
    requires c'.srtt == c.srtt && c'.rttval == c.rttval
    ensures Bounded(cfg, c')
  {
  }

  /** Growth leaves the bounds alone and never passes the other side's window. */
  lemma {:induction false} GrowBounded(c: Control, cfg: Config, mss: u32)
    requires Bounded(cfg, c) && mss > 0
    ensures Bounded(cfg, Grow(c, mss)) && Grow(c, mss).cwnd <= Max(c.cwnd, c.rmtWnd)
  {
    hide Bounded;
    GrowKeeps(c, mss);
    hide Grow;
    FlagsFree(cfg, c, Grow(c, mss));
  }

  lemma {:induction false} GrowKeeps(c: Control, mss: u32)
    requires mss > 0
    ensures var g := Grow(c, mss);
      && g.rto == c.rto && g.probeWait == c.probeWait && g.ssthresh == c.ssthresh && g.srtt == c.srtt
      && g.rttval == c.rttval && g.cwnd <= Max(c.cwnd, c.rmtWnd)
  {
    hide Times, Quotient, Add, Off;
  }

  lemma {:induction false} DropUnaPatient(buf: seq<Seg>, una: u32)
    requires AllPatient(buf)
    ensures AllPatient(DropUna(buf, una))
  {
    if buf != [] && Diff(una, buf[0].pkt.sn) > 0 {
      DropUnaPatient(buf[1..], una);
    }
  }

  lemma {:induction false} RemoveAckPatient(buf: seq<Seg>, sn: u32)
    requires AllPatient(buf)
    ensures AllPatient(RemoveAck(buf, sn))
  {
    if buf != [] {
      RemoveAckPatient(buf[1..], sn);
    }
  }

  lemma {:induction false} CountSkipsPatient(buf: seq<Seg>, sn: u32)
    requires AllPatient(buf)
    ensures AllPatient(CountSkips(buf, sn))
  {
    if buf != [] {
      CountSkipsPatient(buf[1..], sn);
    }
  }

  lemma {:induction false} TakeSteady(st: Scan, p: Packet)
    requires Steady(st.k)
    ensures Steady(KcpSpec.Take(st, p).k)
  {
    hide AllPatient, Bounded, TakeRtt, TakePush, DropUna, RemoveAck, Diff;
    var snd := TakeUna(st.k.snd, p.una);
    DropUnaPatient(st.k.snd.buf, p.una);
    RemoveAckPatient(snd.buf, p.sn);
    var ctl := st.k.ctl.(rmtWnd := p.wnd);
    FlagsFree(st.k.cfg, st.k.ctl, ctl);
    FlagsFree(st.k.cfg, ctl, ctl.(askTell := true));
    if p.cmd == CMD_ACK && Diff(ctl.current, p.ts) >= 0 {
      RttSmooths(ctl, st.k.cfg, Diff(ctl.current, p.ts));
    }
  }

  lemma {:induction false} TakeAllSteady(st: Scan, ps: seq<Packet>)
    requires Steady(st.k)
    ensures Steady(TakeAll(st, ps).k)
    decreases |ps|
  {
    hide Steady;
    if ps != [] {
      TakeSteady(st, ps[0]);
      TakeAllSteady(KcpSpec.Take(st, ps[0]), ps[1..]);
    }
  }

  /** Whatever bytes arrive, the bounds hold. */
  lemma {:induction false} InputSteady(k: Kcp, data: seq<byte>)
    requires k.cfg.Valid() && Steady(k)
    ensures Steady(Input(k, data).0)
  {
    hide AllPatient, Bounded, Grow, CountSkips, TakeAll, Parse;
    var ps, st := Parse(k.cfg.conv, data).packets, Scan(k, false, 0);
    TakeAllSteady(st, ps);
    TakeAllKeepsConfig(st, ps);
    var last := TakeAll(st, ps);
    CountSkipsPatient(last.k.snd.buf, last.maxack);
    GrowBounded(last.k.ctl, k.cfg, k.cfg.Mss());
  }

  /** An acknowledgement that measures a round trip: it is not from the future. */
  predicate Samples(now: u32, p: Packet) {
    p.cmd == CMD_ACK && Diff(now, p.ts) >= 0
  }

  predicate SomeSample(now: u32, ps: seq<Packet>) {
    exists i :: 0 <= i < |ps| && Samples(now, ps[i])
  }

  lemma {:induction false} TakeEstimated(st: Scan, p: Packet, measured: bool)
    requires Estimated(st.k.cfg, st.k.ctl, measured)
    ensures var k := KcpSpec.Take(st, p).k;
      && Estimated(k.cfg, k.ctl, measured || Samples(st.k.ctl.current, p))
      && k.cfg == st.k.cfg && k.ctl.current == st.k.ctl.current
  {
    hide TakePush, Diff;
    RttBounded(st.k.ctl.(rmtWnd := p.wnd), st.k.cfg, Diff(st.k.ctl.current, p.ts));
    hide TakeRtt;
  }

  lemma {:induction false} RttBounded(c: Control, cfg: Config, rtt: int)
    ensures Estimated(cfg, TakeRtt(c, cfg, rtt), true) && TakeRtt(c, cfg, rtt).current == c.current
  {
  }

  lemma {:induction false} TakeAllEstimated(st: Scan, ps: seq<Packet>, measured: bool)
    requires Estimated(st.k.cfg, st.k.ctl, measured)
    ensures var k := TakeAll(st, ps).k; Estimated(k.cfg, k.ctl, measured || SomeSample(st.k.ctl.current, ps))
    decreases |ps|
  {
    if ps != [] {
      hide Estimated, Samples, KcpSpec.Take;
      var now := st.k.ctl.current;
      TakeEstimated(st, ps[0], measured);
      TakeAllEstimated(KcpSpec.Take(st, ps[0]), ps[1..], measured || Samples(now, ps[0]));
      SampleFirst(now, ps);
    }
  }

  lemma {:induction false} SampleFirst(now: u32, ps: seq<Packet>)
    requires ps != []
    ensures SomeSample(now, ps) <==> Samples(now, ps[0]) || SomeSample(now, ps[1..])
  {
    hide Samples;
    if SomeSample(now, ps[1..]) {
      var i :| 0 <= i < |ps[1..]| && Samples(now, ps[1..][i]);
      assert Samples(now, ps[i + 1]);
    }
    if i :| 0 < i < |ps| && Samples(now, ps[i]) {
      assert ps[1..][i - 1] == ps[i];
    }
  }

  /** A datagram measures a round trip exactly when one of the segments acted on does. */
  lemma {:induction false} InputEstimated(k: Kcp, data: seq<byte>, measured: bool)
    requires k.cfg.Valid() && Estimated(k.cfg, k.ctl, measured)
    ensures var k' := Input(k, data).0;
      Estimated(k'.cfg, k'.ctl, measured || SomeSample(k.ctl.current, Parse(k.cfg.conv, data).packets))
  {
    hide Grow, CountSkips, TakeAll, Parse, SomeSample;
    var ps, st := Parse(k.cfg.conv, data).packets, Scan(k, false, 0);
    TakeAllEstimated(st, ps, measured);
    TakeAllKeepsConfig(st, ps);
    GrowKeeps(TakeAll(st, ps).k.ctl, k.cfg.Mss());
    if |data| < OVERHEAD {
      NothingParsed(k.cfg.conv, data, k.ctl.current);
    }
  }

  lemma {:induction false} NothingParsed(conv: u32, data: seq<byte>, now: u32)
    requires |data| < OVERHEAD
    ensures !SomeSample(now, Parse(conv, data).packets)
  {
  }

  // ----- the sending call -----

  lemma {:induction false} PromotePatient(s: Sender, cwnd: u32, rto: u32, stamp: Stamp)
    requires AllPatient(s.buf)
    ensures AllPatient(Promote(s, cwnd, rto, stamp).buf)
    decreases |s.queue|
  {
    if s.queue != [] && Diff(s.nxt, Add(s.una, cwnd)) < 0 {
      var s' := s.(queue := s.queue[1..], buf := s.buf + [Number(s.queue[0], s.nxt, rto, stamp)], nxt := Add(s.nxt, 1));
      assert AllPatient(s'.buf);
      PromotePatient(s', cwnd, rto, stamp);
    }
  }

  /** The policy of a flush: the timeout within its bounds, and an eighth of it at most on top. */
  predicate Timed(p: Policy) {
    0 < p.rto <= RTO_MAX && p.rtomin <= p.rto / 8
  }

  /** The longest wait of a segment sent `n` times, up to its sixteenth time, is less than half the word ring. */
  lemma {:induction false} LongestWait(n: u32)
    requires 0 < n <= 16
    ensures RTO_MAX <= RTO_MAX * TwoTo(n - 1) < HALF
    ensures RTO_MAX * TwoTo(n) == 2 * (RTO_MAX * TwoTo(n - 1))
  {
    FifteenDoublings(n - 1);
  }

  lemma {:induction false} FifteenDoublings(n: nat)
    requires n <= 15
    ensures TwoTo(n) <= 0x8000
    decreases 15 - n
  {
    if n < 15 {
      FifteenDoublings(n + 1);
      assert TwoTo(n + 1) == 2 * TwoTo(n);
    } else {
      assert TwoTo(3) == 8 && TwoTo(6) == 64 && TwoTo(9) == 512 && TwoTo(12) == 4096;
    }
  }

  /** A retransmission that is due waits longer than before, and at most twice as long or as the timeout. */
  lemma {:induction false} BackoffGrows(rto: u32, p: Policy)
    requires Timed(p) && 0 < rto && 2 * Max(rto, RTO_MAX) < WORD && rto < HALF
    ensures rto <= Backoff(rto, p) <= 2 * Max(rto, RTO_MAX)
  {
  }

  /** A segment that goes out stays patient; up to its sixteenth time it is not due again at that instant. */
  lemma {:induction false} XmitPatient(g: Seg, p: Policy)
    requires Timed(p) && Patient(g)
    ensures var g' := Xmit(g, p);
      && Patient(g')
      && (Why(g, p) != Idle && 0 < g'.xmit <= 16 ==> 0 < Diff(g'.resendts, p.stamp.now))
  {
    hide Backoff, TwoTo;
    if 0 < g.xmit <= 16 {
      LongestWait(g.xmit);
      LongestWait(if g.xmit < 16 then g.xmit + 1 else 16);
      BackoffGrows(g.rto, p);
    } else {
      LongestWait(1);
    }
  }

  lemma {:induction false} XmitAllPatient(buf: seq<Seg>, p: Policy)
    requires Timed(p) && AllPatient(buf)
    ensures AllPatient(XmitAll(buf, p))
    ensures forall i :: 0 <= i < |buf| && Why(buf[i], p) != Idle && 0 < XmitAll(buf, p)[i].xmit <= 16 ==>
                          0 < Diff(XmitAll(buf, p)[i].resendts, p.stamp.now)
  {
    hide Xmit, Why, Patient;
    forall i | 0 <= i < |buf|
      ensures Patient(XmitAll(buf, p)[i])
      ensures Why(buf[i], p) != Idle && 0 < XmitAll(buf, p)[i].xmit <= 16 ==>
                0 < Diff(XmitAll(buf, p)[i].resendts, p.stamp.now)
    {
      XmitPatient(buf[i], p);
    }
  }

  /** The window probe keeps its wait between 7000 and 120000, growing by half until it reaches the limit. */
  lemma {:induction false} ProbeBounded(cfg: Config, c: Control)
    requires Bounded(cfg, c)
    ensures var c' := ProbeTimer(c);
      && Bounded(cfg, c') && (c.rmtWnd == 0 <==> c'.probeWait != 0)
      && c'.rto == c.rto && c'.srtt == c.srtt && c'.rttval == c.rttval
      && (c.rmtWnd == 0 ==> c.probeWait <= c'.probeWait)
      && (c'.askSend && !c.askSend ==> c'.tsProbe == Add(c.current, c'.probeWait) && 0 < Diff(c'.tsProbe, c.current))
  {
  }

  /** The window left after a flush is at least 1; a timeout leaves it at 1, with half of it as the threshold. */
  lemma {:induction false} SettleBounded(cfg: Config, c: Control, mss: u32, cwnd: u32, inflight: u32, resent: u32,
                                         change: bool, lost: bool)
    requires Bounded(cfg, c) && mss > 0
    ensures var c' := Settle(c, mss, cwnd, inflight, resent, change, lost);
      && Bounded(cfg, c') && c'.rto == c.rto && c'.srtt == c.srtt && c'.rttval == c.rttval
      && 1 <= c'.cwnd && (lost ==> c'.cwnd == 1 && c'.ssthresh == Max(cwnd / 2, THRESH_MIN))
  {
    hide Times;
  }

  lemma {:induction false} PolicyTimed(k: Kcp)
    requires Bounded(k.cfg, k.ctl)
    ensures Timed(PolicyOf(k)) && PolicyOf(k).stamp.now == k.ctl.current
  {
  }

  /** After a flush the congestion window is at least 1, and no segment just sent is due again, up to its sixteenth
      time. */
  lemma {:induction false} FlushSteady(k: Kcp)
    requires k.cfg.Valid() && Stocked(k.cfg, k.snd) && Steady(k) && k.ctl.updated
    ensures var k' := Flush(k).0;
      && Steady(k') && 1 <= k'.ctl.cwnd
      && k'.ctl.rto == k.ctl.rto && k'.ctl.srtt == k.ctl.srtt && k'.ctl.rttval == k.ctl.rttval
      && |k'.snd.buf| == |Promoted(k).buf|
      && forall i :: 0 <= i < |k'.snd.buf| && Why(Promoted(k).buf[i], PolicyOf(k)) != Idle ==>
          (0 < k'.snd.buf[i].xmit <= 16 ==> 0 < Diff(k'.snd.buf[i].resendts, k.ctl.current))
  {
    hide Xmit, XmitAll, Why, Patient, AllPatient, ProbeTimer, Settle, Promote, Bump, Tally, GivesUp, Stocked, Window,
      FlushPackets, AppendAll, Bounded;
    var s, p := Promoted(k), PolicyOf(k);
    PolicyTimed(k);
    PromotePatient(k.snd, Window(k.cfg, k.ctl), k.ctl.rto, StampOf(k));
    XmitAllPatient(s.buf, p);
    ProbeBounded(k.cfg, k.ctl);
    var c := ProbeTimer(k.ctl).(askSend := false, askTell := false);
    var c1 := c.(xmit := Bump(c.xmit, Tally(s.buf, p, Timeout)), dead := c.dead || GivesUp(s.buf, p, k.cfg.deadLink));
    FlagsFree(k.cfg, ProbeTimer(k.ctl), c1);
    SettleBounded(k.cfg, c1, k.cfg.Mss(), Window(k.cfg, k.ctl), Off(s.nxt, s.una), p.resent, Tally(s.buf, p, Fast) > 0,
                  Tally(s.buf, p, Timeout) > 0);
  }

  // ----- every sequence of calls -----

  /** What `ikcp_update` does before it flushes touches only the clocks. */
  lemma {:induction false} TickSteady(k: Kcp, now: u32)
    requires Steady(k)
    ensures Steady(k.(ctl := Tick(k.ctl, k.cfg.interval, now).0)) && Tick(k.ctl, k.cfg.interval, now).0.updated
  {
    hide AllPatient, Bounded;
    FlagsFree(k.cfg, k.ctl, Tick(k.ctl, k.cfg.interval, now).0);
  }

  lemma {:induction false} UpdateSteady(k: Kcp, now: u32)
    requires k.cfg.Valid() && Stocked(k.cfg, k.snd) && Steady(k)
    ensures Steady(Update(k, now).0)
  {
    hide Steady, Flush, Stocked;
    TickSteady(k, now);
    var (c, due) := Tick(k.ctl, k.cfg.interval, now);
    if due {
      FlushSteady(k.(ctl := c));
    }
  }

  lemma {:induction false} RecvSteady(k: Kcp, len: int)
    requires Steady(k)
    ensures Steady(Recv(k, len).0)
  {
    hide AllPatient, Bounded, Drain, PeekSize, Merge;
    FlagsFree(k.cfg, k.ctl, Recv(k, len).0.ctl);
  }

  /** One call of the interface, whatever its arguments, keeps the bounds. */
  lemma {:induction false} ActSteady(p: Peer, e: Event)
    requires Ready(p) && Steady(p.k)
    ensures Steady(Act(p, e).k)
  {
    hide Input, Flush, Update, Recv;
    match e {
      case Submit(buffer) =>
      case Take(len) => RecvSteady(p.k, len);
      case Arrive(d) => InputSteady(p.k, d);
      case Clock(now) => UpdateSteady(p.k, now);
      case Push =>
        if p.k.ctl.updated {
          FlushSteady(p.k);
        } else {
          FlushWaits(p.k);
        }
    }
  }

  /** Before the first `ikcp_update` a flush does nothing. */
  lemma {:induction false} FlushWaits(k: Kcp)
    requires k.cfg.Valid() && Stocked(k.cfg, k.snd) && !k.ctl.updated
    ensures Flush(k) == (k, [])
  {
  }

  function Calls(p: Peer, es: seq<Event>): (p': Peer)
    requires Ready(p)
    ensures Ready(p') && p'.k.cfg == p.k.cfg
    decreases |es|
  {
    if es == [] then p else Calls(Act(p, es[0]), es[1..])
  }

  lemma {:induction false} CallsSteady(p: Peer, es: seq<Event>)
    requires Ready(p) && Steady(p.k)
    ensures Steady(Calls(p, es).k)
    decreases |es|
  {
    if es != [] {
      ActSteady(p, es[0]);
      CallsSteady(Act(p, es[0]), es[1..]);
    }
  }

  /** Whether some call of a run measures a round trip. */
  predicate Measures(p: Peer, es: seq<Event>)
    requires Ready(p)
    decreases |es|
  {
    es != [] && (MeasuresNow(p.k, es[0]) || Measures(Act(p, es[0]), es[1..]))
  }

  predicate MeasuresNow(k: Kcp, e: Event) {
    e.Arrive? && SomeSample(k.ctl.current, Parse(k.cfg.conv, e.d).packets)
  }

  lemma {:induction false} ActEstimated(p: Peer, e: Event, measured: bool)
    requires Ready(p) && Steady(p.k) && Estimated(p.k.cfg, p.k.ctl, measured)
    ensures Estimated(p.k.cfg, Act(p, e).k.ctl, measured || MeasuresNow(p.k, e))
  {
    match e {
      case Submit(buffer) =>
      case Take(len) => RecvKeepsTimes(p.k, len);
      case Arrive(d) => InputEstimated(p.k, d, measured);
      case Clock(now) => UpdateKeepsTimes(p.k, now);
      case Push => FlushKeepsTimes(p.k);
    }
    hide Input, Flush, Update, Recv, SomeSample, Stocked;
  }

  lemma {:induction false} RecvKeepsTimes(k: Kcp, len: int)
    ensures var c := Recv(k, len).0.ctl; c.rto == k.ctl.rto && c.srtt == k.ctl.srtt && c.rttval == k.ctl.rttval
  {
    hide Drain, PeekSize, Merge;
  }

  lemma {:induction false} FlushKeepsTimes(k: Kcp)
    requires k.cfg.Valid() && Stocked(k.cfg, k.snd) && Steady(k)
    ensures var c := Flush(k).0.ctl; c.rto == k.ctl.rto && c.srtt == k.ctl.srtt && c.rttval == k.ctl.rttval
  {
    if k.ctl.updated {
      FlushSteady(k);
    } else {
      FlushWaits(k);
    }
  }

  lemma {:induction false} UpdateKeepsTimes(k: Kcp, now: u32)
    requires k.cfg.Valid() && Stocked(k.cfg, k.snd) && Steady(k)
    ensures var c := Update(k, now).0.ctl; c.rto == k.ctl.rto && c.srtt == k.ctl.srtt && c.rttval == k.ctl.rttval
  {
    hide Steady, Flush, Stocked;
    TickSteady(k, now);
    FlushKeepsTimes(k.(ctl := Tick(k.ctl, k.cfg.interval, now).0));
  }

  lemma {:induction false} CallsEstimated(p: Peer, es: seq<Event>, measured: bool)
    requires Ready(p) && Steady(p.k) && Estimated(p.k.cfg, p.k.ctl, measured)
    ensures Estimated(p.k.cfg, Calls(p, es).k.ctl, measured || Measures(p, es))
    decreases |es|
  {
    if es != [] {
      hide Estimated, Steady, MeasuresNow;
      ActSteady(p, es[0]);
      ActEstimated(p, es[0], measured);
      CallsEstimated(Act(p, es[0]), es[1..], measured || MeasuresNow(p.k, es[0]));
    }
  }

  /** From `ikcp_create` on, after any calls in any order and any bytes from the network, the bounds hold, the
      timeout is the initial one until a round trip is measured and within its bounds from then on, and a flush leaves a
      congestion window of at least 1. */
  lemma {:induction false} AlwaysSteady(cfg: Config, es: seq<Event>)
    requires cfg.Valid() && 0 < cfg.minRto && Ready(Fresh(cfg))
    ensures var k := Calls(Fresh(cfg), es).k;
      && Steady(k) && Estimated(cfg, k.ctl, Measures(Fresh(cfg), es))
      && (k.ctl.updated ==> 1 <= Flush(k).0.ctl.cwnd)
  {
    CreateSteady(cfg);
    CallsSteady(Fresh(cfg), es);
    CallsEstimated(Fresh(cfg), es, false);
    var k := Calls(Fresh(cfg), es).k;
    if k.ctl.updated {
      FlushSteady(k);
    }
  }
}
