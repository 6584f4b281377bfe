/** The progress of a round when the receiver has no data of its own, told from the state before the round. */
module KcpQuiet {
  import opened Basics
  import opened KcpWire
  import opened KcpSpec
  import opened KcpDatagram
  import opened KcpSystem
  import opened KcpProgress

  // ----- what a run of segments does to the probes and the sending side -----

  predicate HasAsk(ps: seq<Packet>) {
    exists i :: 0 <= i < |ps| && ps[i].cmd == CMD_WASK
  }

  /** `k'` is `k` after `ps`: asked for its window if one of them asks, told the window of the last, its clocks as they
      were. */
  predicate Told(k: Kcp, ps: seq<Packet>, k': Kcp) {
    && k'.cfg == k.cfg
    && k'.ctl.current == k.ctl.current && k'.ctl.tsProbe == k.ctl.tsProbe && k'.ctl.probeWait == k.ctl.probeWait
    && k'.ctl.askSend == k.ctl.askSend && (k'.ctl.askTell <==> k.ctl.askTell || HasAsk(ps))
    && k'.ctl.rmtWnd == (if ps == [] then k.ctl.rmtWnd else ps[|ps| - 1].wnd)
    && (k.snd.buf == [] && k.snd.queue == [] ==> k'.snd.buf == [] && k'.snd.queue == [])
  }

  lemma {:induction false} ToldTwice(k: Kcp, ps: seq<Packet>, k': Kcp, qs: seq<Packet>, k'': Kcp)
    requires Told(k, ps, k') && Told(k', qs, k'')
    ensures Told(k, ps + qs, k'')
  {
    AskSplits(ps, qs);
  }

  lemma {:induction false} AskSplits(ps: seq<Packet>, qs: seq<Packet>)
    ensures HasAsk(ps + qs) <==> HasAsk(ps) || HasAsk(qs)
  {
    if HasAsk(ps) {
      var i :| 0 <= i < |ps| && ps[i].cmd == CMD_WASK;
      assert (ps + qs)[i] == ps[i];
    }
    if HasAsk(qs) {
      var i :| 0 <= i < |qs| && qs[i].cmd == CMD_WASK;
      assert (ps + qs)[|ps| + i] == qs[i];
    }
  }

  lemma {:induction false} TakeTold(st: Scan, p: Packet)
    ensures Told(st.k, [p], KcpSpec.Take(st, p).k)
  {
    hide TakeRtt, TakePush, Diff;
    assert [p][0] == p && (HasAsk([p]) <==> p.cmd == CMD_WASK);
    RttTells(st.k.ctl.(rmtWnd := p.wnd), st.k.cfg, Diff(st.k.ctl.current, p.ts));
  }

  lemma {:induction false} RttTells(c: Control, cfg: Config, rtt: int)
    ensures var c' := TakeRtt(c, cfg, rtt);
      && c'.current == c.current && c'.tsProbe == c.tsProbe && c'.probeWait == c.probeWait
      && c'.askSend == c.askSend && c'.askTell == c.askTell && c'.rmtWnd == c.rmtWnd
  {
  }

  lemma {:induction false} TakeAllTold(st: Scan, ps: seq<Packet>)
    ensures Told(st.k, ps, TakeAll(st, ps).k)
    decreases |ps|
  {
    if ps != [] {
      hide Told;
      TakeTold(st, ps[0]);
      TakeAllTold(KcpSpec.Take(st, ps[0]), ps[1..]);
      ToldTwice(st.k, [ps[0]], KcpSpec.Take(st, ps[0]).k, ps[1..], TakeAll(st, ps).k);
      assert [ps[0]] + ps[1..] == ps;
    }
  }

  lemma {:induction false} FinishTold(st: Scan, una: u32)
    requires st.k.cfg.Valid()
    ensures Told(st.k, [], FinishInput(st, una))
  {
    hide Grow, Diff, CountSkips;
    GrowTells(st.k.ctl, st.k.cfg.Mss());
    SkipsNothing(st.maxack);
  }

  lemma {:induction false} GrowTells(c: Control, mss: u32)
    requires mss > 0
    ensures var c' := Grow(c, mss);
      && c'.current == c.current && c'.tsProbe == c.tsProbe && c'.probeWait == c.probeWait
      && c'.askSend == c.askSend && c'.askTell == c.askTell && c'.rmtWnd == c.rmtWnd
  {
    hide Times, Quotient, Add, Off;
  }

  lemma {:induction false} SkipsNothing(sn: u32)
    ensures CountSkips([], sn) == []
  {
  }

  lemma {:induction false} InputTold(k: Kcp, d: seq<byte>)
    requires k.cfg.Valid()
    ensures Told(k, Parse(k.cfg.conv, d).packets, Input(k, d).0)
  {
    hide Told, TakeAll, FinishInput;
    var ps, st := Parse(k.cfg.conv, d).packets, Scan(k, false, 0);
    TakeAllTold(st, ps);
    TakeAllKeepsConfig(st, ps);
    if |d| >= OVERHEAD {
      FinishTold(TakeAll(st, ps), k.snd.una);
      ToldTwice(k, ps, TakeAll(st, ps).k, [], FinishInput(TakeAll(st, ps), k.snd.una));
      assert ps + [] == ps;
    } else {
      ToldNothing(k);
    }
  }

  lemma {:induction false} ToldNothing(k: Kcp)
    ensures Told(k, [], k)
  {
  }

  lemma {:induction false} DeliverTold(p: Peer, ds: seq<seq<byte>>)
    requires Ready(p)
    ensures Told(p.k, ParseDatagrams(p.k.cfg.conv, ds), Deliver(p, ds).k)
    decreases |ds|
  {
    if ds == [] {
      ToldNothing(p.k);
    } else {
      hide Told, Parse, Input;
      var p' := Act(p, Arrive(ds[0]));
      InputTold(p.k, ds[0]);
      DeliverTold(p', ds[1..]);
      ParseDatagramsHead(p.k.cfg.conv, ds);
      ToldTwice(p.k, Parse(p.k.cfg.conv, ds[0]).packets, p'.k, ParseDatagrams(p.k.cfg.conv, ds[1..]), Deliver(p, ds).k);
    }
  }

  // ----- what a flush tells -----

  /** Every segment of a flush announces the same window, and one asks for the other's exactly when the probe is due. */
  lemma {:induction false} FlushTells(k: Kcp)
    requires k.cfg.Valid() && Stocked(k.cfg, k.snd)
    ensures forall i :: 0 <= i < |FlushPackets(k)| ==> FlushPackets(k)[i].wnd == StampOf(k).wnd
    ensures HasAsk(FlushPackets(k)) <==> ProbeTimer(k.ctl).askSend
  {
    var stamp, p, buf, acks := StampOf(k), PolicyOf(k), Promoted(k).buf, k.rcv.acks;
    PromoteStocked(k.cfg, k.snd, Window(k.cfg, k.ctl), k.ctl.rto, stamp);
    DataTells(k.cfg, buf, p);
    hide ProbeTimer, DataPackets, Promoted, PolicyOf, StampOf;
    var c := ProbeTimer(k.ctl);
    var front := AckPackets(acks, stamp) + ProbePackets(c, acks, stamp);
    AskSplits(AckPackets(acks, stamp), ProbePackets(c, acks, stamp));
    AskSplits(front, DataPackets(buf, p));
    ProbesAsk(c, acks, stamp);
  }

  lemma {:induction false} ProbesAsk(c: Control, acks: seq<Ack>, s: Stamp)
    ensures HasAsk(ProbePackets(c, acks, s)) <==> c.askSend
  {
    if c.askSend {
      assert ProbePackets(c, acks, s)[0].cmd == CMD_WASK;
    }
  }

  lemma {:induction false} DataTells(cfg: Config, buf: seq<Seg>, p: Policy)
    requires forall i :: 0 <= i < |buf| ==> StockedSeg(cfg, buf[i])
    ensures forall i :: 0 <= i < |DataPackets(buf, p)| ==> DataPackets(buf, p)[i].wnd == p.stamp.wnd
    ensures !HasAsk(DataPackets(buf, p))
    decreases |buf|
  {
    if buf != [] {
      var init, last := buf[..|buf| - 1], buf[|buf| - 1];
      DataTells(cfg, init, p);
      AskSplits(DataPackets(init, p), if Why(last, p) == Idle then [] else [Xmit(last, p).pkt]);
      assert StockedSeg(cfg, last);
    }
  }

  // ----- the round -----

  /** The receiver owes or wants a window: it was asked before, the sender's flush asks, or its own probe is due once
      it has heard of the sender's window. */
  predicate Prompted(p: Pair) {
    || p.b.k.ctl.askTell || ProbeTimer(p.a.k.ctl).askSend
    || ProbeTimer(p.b.k.ctl.(rmtWnd := StampOf(p.a.k).wnd)).askSend
  }

  lemma {:induction false} NothingToSend(k: Kcp)
    requires k.snd.queue == [] && k.snd.buf == []
    ensures DataPackets(Promoted(k).buf, PolicyOf(k)) == []
  {
  }

  /** A receiver with no data of its own answers exactly when acknowledgements wait already, a segment of the flush
      passes the guard, or it is prompted. */
  lemma {:induction false} QuietAnswers(p: Pair)
    requires Ready2(p) && RoundDue(p) && p.b.k.snd.queue == [] && p.b.k.snd.buf == []
    requires p.a.k.cfg.conv == p.b.k.cfg.conv
    ensures Answers(p) <==>
      |p.b.k.rcv.acks| > 0 || SomeBefore(p.b.k.rcv, FlushPackets(p.a.k), p.b.k.cfg.rcvWnd) || Prompted(p)
  {
    var a, b, ps := p.a.k, p.b.k, FlushPackets(p.a.k);
    FlushParsesBack(a);
    FlushTells(a);
    var control, head, rest := FlushRepeatsHead(a);
    assert |ps| > 0;
    DeliverTold(p.b, Flush(a).1);
    NothingToSend(Answering(p));
    hide FlushPackets, Flush, SomeBefore, StampOf, Promoted, DataPackets;
    ProbesSent(b, ps, Answering(p));
  }

  lemma {:induction false} ProbesSent(b: Kcp, ps: seq<Packet>, b': Kcp)
    requires Told(b, ps, b') && |ps| > 0
    ensures |ProbePackets(ProbeTimer(b'.ctl), b'.rcv.acks, StampOf(b'))| > 0 <==>
      b.ctl.askTell || HasAsk(ps) || ProbeTimer(b.ctl.(rmtWnd := ps[|ps| - 1].wnd)).askSend
  {
    hide StampOf, HasAsk;
  }

  /** Progress, told from the state before the round: in every reachable state in which the oldest segment is due and
      the receiver has room but no data of its own, the round advances the sender if and only if acknowledgements wait
      already, a segment of the flush passes the guard, or the receiver is prompted to speak of windows. */
  lemma {:induction false} QuietRoundAdvances(start: Pair, steps: seq<Step>)
    requires Start(start)
    requires Ready2(start) && Legal(start, steps) && Short(Run(start, steps)) && RoundDue(Run(start, steps))
    requires var b := Run(start, steps).b.k; b.snd.queue == [] && b.snd.buf == []
    ensures var p := Run(start, steps);
      Round(p).a.k.snd.una > p.a.k.snd.una <==>
        |p.b.k.rcv.acks| > 0 || SomeBefore(p.b.k.rcv, FlushPackets(p.a.k), p.b.k.cfg.rcvWnd) || Prompted(p)
  {
    hide Run, Legal, Round, Answers, RoundDue, SomeBefore, Prompted, FlushPackets;
    StartFlows(start);
    RunKeepsFlows(start, steps);
    RoundAdvances(start, steps);
    QuietAnswers(Run(start, steps));
  }
}
