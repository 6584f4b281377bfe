/** A flush and the receiving loop are inverse: what is packed into datagrams is what is read back. */
module KcpDatagram {
  import opened Basics
  import opened KcpWire
  import opened KcpSpec

  /** The segments a receiver reads from a run of datagrams. */
  function ParseDatagrams(conv: u32, ds: seq<seq<byte>>): seq<Packet> {
    if ds == [] then []
    else ParseDatagrams(conv, ds[..|ds| - 1]) + Parse(conv, ds[|ds| - 1]).packets
  }

  /** A datagram that is cut between segments and read to its end without error. */
  predicate Whole(conv: u32, d: seq<byte>) {
    var parsed := Parse(conv, d);
    parsed.code == 0 && AllSendable(conv, parsed.packets) && d == EncodeAll(parsed.packets)
  }

  /** `tail` is what waits in the buffer of `o`; the rest of `ps` has left in whole datagrams. */
  predicate Packed(conv: u32, mtu: u32, o: Out, ps: seq<Packet>, tail: seq<Packet>) {
    && AllSendable(conv, tail) && o.cur == EncodeAll(tail) && |o.cur| <= mtu
    && ParseDatagrams(conv, o.done) + tail == ps
    && (forall i :: 0 <= i < |o.done| ==> 0 < |o.done[i]| <= mtu && Whole(conv, o.done[i]))
  }

  /** Handing over the buffer turns the waiting segments into one more whole datagram, unless it is empty. */
  lemma {:induction false} HandOver(conv: u32, mtu: u32, o: Out, ps: seq<Packet>, tail: seq<Packet>)
    requires Packed(conv, mtu, o, ps, tail)
    ensures Packed(conv, mtu, Out(Handed(o), []), ps, [])
  {
    hide Parse, EncodeAll, Sendable;
    ParseRoundTrip(conv, tail);
    if o.cur != [] {
      var ds := Handed(o);
      assert ds[..|ds| - 1] == o.done;
      assert ParseDatagrams(conv, ds) == ParseDatagrams(conv, o.done) + tail;
      forall i | 0 <= i < |ds| ensures 0 < |ds[i]| <= mtu && Whole(conv, ds[i]) {
        if i < |o.done| {
          assert ds[i] == o.done[i];
        }
      }
    }
    assert ParseDatagrams(conv, Handed(o)) + [] == ps;
  }

  /** A segment that fits joins the waiting ones. */
  lemma {:induction false} ExtendPacked(conv: u32, mtu: u32, o: Out, ps: seq<Packet>, tail: seq<Packet>, p: Packet)
    requires Packed(conv, mtu, o, ps, tail)
    requires Sendable(conv, p) && |o.cur| + OVERHEAD + |p.data| <= mtu
    ensures Packed(conv, mtu, Out(o.done, o.cur + Encode(p)), ps + [p], tail + [p])
  {
    EncodeAllAppend(tail, p);
    var done := ParseDatagrams(conv, o.done);
    assert done + (tail + [p]) == (done + tail) + [p];
  }

  lemma {:induction false} AppendPacked(conv: u32, mtu: u32, o: Out, ps: seq<Packet>, tail: seq<Packet>, p: Packet)
    returns (tail': seq<Packet>)
    requires Packed(conv, mtu, o, ps, tail)
    requires Sendable(conv, p) && OVERHEAD + |p.data| <= mtu
    ensures Packed(conv, mtu, Append(o, Encode(p), mtu), ps + [p], tail')
  {
    hide Packed, Sendable;
    if |o.cur| + |Encode(p)| > mtu {
      HandOver(conv, mtu, o, ps, tail);
      ExtendPacked(conv, mtu, Out(Handed(o), []), ps, [], p);
      tail' := [] + [p];
      assert [] + Encode(p) == Encode(p);
    } else {
      ExtendPacked(conv, mtu, o, ps, tail, p);
      tail' := tail + [p];
    }
  }

  lemma {:induction false} EmptyPacked(conv: u32, mtu: u32)
    ensures Packed(conv, mtu, Out([], []), [], [])
  {
    assert ParseDatagrams(conv, []) + [] == [];
  }

  /** Appending a list is appending its beginning and then its last segment. */
  lemma {:induction false} AppendAllLast(o: Out, ps: seq<Packet>, mtu: u32)
    ensures AppendAll(o, [], mtu) == o
    ensures ps != [] ==>
              AppendAll(o, ps, mtu) == Append(AppendAll(o, ps[..|ps| - 1], mtu), Encode(ps[|ps| - 1]), mtu)
  {
    hide Append, Encode;
  }

  lemma {:induction false} AppendAllPacked(conv: u32, mtu: u32, ps: seq<Packet>) returns (tail: seq<Packet>)
    requires AllSendable(conv, ps)
    requires forall i :: 0 <= i < |ps| ==> OVERHEAD + |ps[i].data| <= mtu
    ensures Packed(conv, mtu, AppendAll(Out([], []), ps, mtu), ps, tail)
    decreases |ps|
  {
    hide Packed, Append, AppendAll, Encode, Sendable;
    AppendAllLast(Out([], []), ps, mtu);
    if ps == [] {
      EmptyPacked(conv, mtu);
      tail := [];
    } else {
      var init, p := ps[..|ps| - 1], ps[|ps| - 1];
      var t := AppendAllPacked(conv, mtu, init);
      tail := AppendPacked(conv, mtu, AppendAll(Out([], []), init, mtu), init, t, p);
      assert init + [p] == ps;
    }
  }

  /** Each datagram of a flush is non-empty, fits the mtu and is cut between segments; read back in order they yield
      exactly the acknowledgements, probes and data segments the flush chose. */
  lemma {:induction false} FlushParsesBack(k: Kcp)
    requires k.cfg.Valid() && Stocked(k.cfg, k.snd)
    ensures forall i :: 0 <= i < |Flush(k).1| ==> 0 < |Flush(k).1[i]| <= k.cfg.mtu && Whole(k.cfg.conv, Flush(k).1[i])
    ensures ParseDatagrams(k.cfg.conv, Flush(k).1) == if k.ctl.updated then FlushPackets(k) else []
  {
    FlushSendable(k);
    if k.ctl.updated {
      var ps, o := FlushPackets(k), AppendAll(Out([], []), FlushPackets(k), k.cfg.mtu);
      var tail := AppendAllPacked(k.cfg.conv, k.cfg.mtu, ps);
      HandOver(k.cfg.conv, k.cfg.mtu, o, ps, tail);
      assert ParseDatagrams(k.cfg.conv, Handed(o)) + [] == ParseDatagrams(k.cfg.conv, Handed(o));
    }
  }
}
