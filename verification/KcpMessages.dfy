/** Messages and their pieces: what ikcp_send cuts, ikcp_recv puts together again. */
module KcpMessages {
  import opened Basics
  import opened KcpWire
  import opened KcpSpec

  /** A message `ikcp_send` accepts. */
  predicate Sized(m: seq<byte>, mss: u32)
    requires mss > 0
  {
    FragTotal(|m|, mss) < WND_RCV
  }

  predicate AllSized(ms: seq<seq<byte>>, mss: u32)
    requires mss > 0
  {
    forall i :: 0 <= i < |ms| ==> Sized(ms[i], mss)
  }

  function Pieces(m: seq<byte>, mss: u32): (fs: seq<Frag>)
    requires mss > 0 && Sized(m, mss)
    ensures |fs| == FragTotal(|m|, mss)
  {
    Fragments(m, mss, FragTotal(|m|, mss))
  }

  /** All pieces of all messages, in the order in which segment numbers will be given to them. */
  function Log(ms: seq<seq<byte>>, mss: u32): seq<Frag>
    requires mss > 0 && AllSized(ms, mss)
  {
    if ms == [] then [] else Log(ms[..|ms| - 1], mss) + Pieces(ms[|ms| - 1], mss)
  }

  function FragOf(p: Packet): Frag {
    Frag(p.frg, p.data)
  }

  function FragsOf(ps: seq<Packet>): (fs: seq<Frag>)
    ensures |fs| == |ps|
  {
    seq(|ps|, i requires 0 <= i < |ps| => FragOf(ps[i]))
  }

  function Join(fs: seq<Frag>): seq<byte> {
    if fs == [] then [] else fs[0].data + Join(fs[1..])
  }

  lemma {:induction false} RoomForRest(len: nat, mss: u32, count: nat)
    requires mss > 0 && count > 0 && len <= count * mss
    ensures len - (if len > mss then mss else len) <= (count - 1) * mss
  {
    assert count * mss == (count - 1) * mss + mss;
    assert (count - 1) * mss >= 0;
  }

  /** The pieces count down to 0, fit the segment size, and joined give the bytes back. */
  lemma {:induction false} FragmentsAre(data: seq<byte>, mss: u32, count: nat)
    requires mss > 0 && count <= 256 && |data| <= count * mss
    ensures forall i :: 0 <= i < count ==>
      Fragments(data, mss, count)[i].frg == count - 1 - i && |Fragments(data, mss, count)[i].data| <= mss
    ensures Join(Fragments(data, mss, count)) == data
  {
    if count > 0 {
      var size := if |data| > mss then mss else |data|;
      var rest := data[size..];
      RoomForRest(|data|, mss, count);
      FragmentsAre(rest, mss, count - 1);
      JoinHead(Frag(count - 1, data[..size]), Fragments(rest, mss, count - 1));
      assert data == data[..size] + rest;
    }
  }

  lemma {:induction false} JoinHead(f: Frag, fs: seq<Frag>)
    ensures Join([f] + fs) == f.data + Join(fs)
  {
    assert ([f] + fs)[1..] == fs;
  }

  lemma {:induction false} PiecesAre(m: seq<byte>, mss: u32)
    requires mss > 0 && Sized(m, mss)
    ensures forall i :: 0 <= i < |Pieces(m, mss)| ==>
      Pieces(m, mss)[i].frg == |Pieces(m, mss)| - 1 - i && |Pieces(m, mss)[i].data| <= mss
    ensures Join(Pieces(m, mss)) == m
  {
    FragTotalCovers(|m|, mss);
    FragmentsAre(m, mss, FragTotal(|m|, mss));
  }

  /** Sending more messages only extends the log. */
  lemma {:induction false} LogGrows(ms: seq<seq<byte>>, n: nat, mss: u32)
    requires mss > 0 && AllSized(ms, mss) && n <= |ms|
    ensures AllSized(ms[..n], mss) && Log(ms[..n], mss) <= Log(ms, mss)
    ensures n < |ms| ==> AllSized(ms[..n + 1], mss) && Log(ms[..n + 1], mss) == Log(ms[..n], mss) + Pieces(ms[n], mss)
    decreases |ms|
  {
    if n < |ms| {
      assert ms[..n + 1][..n] == ms[..n];
      var init := ms[..|ms| - 1];
      LogGrows(init, n, mss);
      assert init[..n] == ms[..n];
    } else {
      assert ms[..n] == ms;
    }
  }

  /** The same, for a prefix given as such. */
  lemma {:induction false} LogOfPrefix(xs: seq<seq<byte>>, ys: seq<seq<byte>>, mss: u32)
    requires mss > 0 && AllSized(ys, mss) && xs <= ys
    ensures AllSized(xs, mss) && Log(xs, mss) <= Log(ys, mss)
  {
    LogGrows(ys, |xs|, mss);
    assert ys[..|xs|] == xs;
  }

  lemma {:induction false} MergeIsJoin(ps: seq<Packet>)
    ensures Merge(ps) == Join(FragsOf(ps))
  {
    if ps != [] {
      MergeIsJoin(ps[1..]);
      assert FragsOf(ps)[1..] == FragsOf(ps[1..]);
    }
  }

  lemma {:induction false} FragCountIs(queue: seq<Packet>, n: nat)
    requires 0 < n <= |queue| && forall i :: 0 <= i < n ==> queue[i].frg == n - 1 - i
    ensures FragCount(queue) == n
  {
    if n > 1 {
      FragCountIs(queue[1..], n - 1);
    }
  }

  /** The size announced is the size merged: the assertion in `ikcp_recv` cannot fail. */
  lemma {:induction false} PeekIsMergedSize(queue: seq<Packet>)
    requires PeekSize(queue) >= 0
    ensures queue != [] && PeekSize(queue) == |Merge(queue[..FragCount(queue)])|
  {
    if queue[0].frg == 0 {
      assert queue[..1] == [queue[0]];
      assert Merge([queue[0]]) == queue[0].data + Merge([]);
    }
  }

  lemma {:induction false} LogSnoc(ms: seq<seq<byte>>, m: seq<byte>, mss: u32)
    requires mss > 0 && AllSized(ms, mss) && Sized(m, mss)
    ensures AllSized(ms + [m], mss) && Log(ms + [m], mss) == Log(ms, mss) + Pieces(m, mss)
  {
    assert (ms + [m])[..|ms|] == ms;
  }

  /** Where the log goes on after the messages delivered, it goes on with the pieces of the next message. */
  lemma {:induction false} NextInLog(got: seq<seq<byte>>, sent: seq<seq<byte>>, mss: u32)
    requires mss > 0 && AllSized(sent, mss) && got < sent && AllSized(got, mss)
    ensures AllSized(got + [sent[|got|]], mss)
    ensures Log(got + [sent[|got|]], mss) == Log(got, mss) + Pieces(sent[|got|], mss)
    ensures Log(got + [sent[|got|]], mss) <= Log(sent, mss)
  {
    LogSnoc(got, sent[|got|], mss);
    LogOfPrefix(got + [sent[|got|]], sent, mss);
  }

  /** The pieces of `m` at the front of a queue: if the queue is not too short, merging gives `m`. */
  lemma {:induction false} FrontMessage(queue: seq<Packet>, m: seq<byte>, mss: u32)
    requires mss > 0 && Sized(m, mss) && queue != []
    requires forall i :: 0 <= i < |queue| && i < |Pieces(m, mss)| ==> FragOf(queue[i]) == Pieces(m, mss)[i]
    requires PeekSize(queue) >= 0
    ensures FragCount(queue) == |Pieces(m, mss)| && Merge(queue[..FragCount(queue)]) == m
  {
    var fs := Pieces(m, mss);
    PiecesAre(m, mss);
    assert FragOf(queue[0]) == fs[0];
    assert |fs| <= |queue|;
    forall i | 0 <= i < |fs| ensures queue[i].frg == |fs| - 1 - i {
      assert FragOf(queue[i]) == fs[i];
    }
    FragCountIs(queue, |fs|);
    MergeIsJoin(queue[..|fs|]);
    assert FragsOf(queue[..|fs|]) == fs;
  }

  /** A queue that starts at the pieces of the next message hands out exactly that message, once it is complete. */
  lemma {:induction false} NextMessage(queue: seq<Packet>, got: seq<seq<byte>>, sent: seq<seq<byte>>, end: nat,
                                       mss: u32)
    requires mss > 0 && AllSized(sent, mss) && got <= sent && AllSized(got, mss)
    requires |Log(got, mss)| <= end <= |Log(sent, mss)|
    requires FragsOf(queue) == Log(sent, mss)[|Log(got, mss)|..end]
    requires PeekSize(queue) >= 0
    ensures |got| < |sent|
    ensures FragCount(queue) == |Pieces(sent[|got|], mss)|
    ensures Merge(queue[..FragCount(queue)]) == sent[|got|]
    ensures AllSized(got + [sent[|got|]], mss)
    ensures |Log(got + [sent[|got|]], mss)| == |Log(got, mss)| + FragCount(queue) <= end
  {
    var base, log := |Log(got, mss)|, Log(sent, mss);
    assert got != sent;
    NextInLog(got, sent, mss);
    var fs := Pieces(sent[|got|], mss);
    forall i | 0 <= i < |queue| && i < |fs| ensures FragOf(queue[i]) == fs[i] {
      assert FragsOf(queue)[i] == log[base + i];
    }
    FrontMessage(queue, sent[|got|], mss);
  }
}
