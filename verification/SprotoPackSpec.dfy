/** The zero-packing of sproto: segments of eight bytes, short ones written without their zeros, runs of full ones
    raw. */
module SprotoPackSpec {
  import opened Basics

  /** Eight bytes. */
  ghost predicate Segment(s: seq<byte>) {
    |s| == 8
  }

  ghost predicate Segments(ss: seq<seq<byte>>) {
    forall i :: 0 <= i < |ss| ==> Segment(ss[i])
  }

  function NonZero(s: seq<byte>): (n: nat)
    ensures n <= |s|
  {
    if s == [] then 0 else NonZero(s[..|s| - 1]) + if s[|s| - 1] != 0 then 1 else 0
  }

  /** The bytes that are not zero. */
  function Kept(s: seq<byte>): (k: seq<byte>)
    ensures |k| == NonZero(s)
  {
    if s == [] then [] else Kept(s[..|s| - 1]) + if s[|s| - 1] != 0 then [s[|s| - 1]] else []
  }

  /** One bit for every byte that is not zero. */
  function Header(s: seq<byte>): nat {
    if s == [] then 0 else Header(s[..|s| - 1]) + if s[|s| - 1] != 0 then TwoTo(|s| - 1) else 0
  }

  function Bit(h: nat, i: nat): bool {
    if i == 0 then h % 2 == 1 else Bit(h / 2, i - 1)
  }

  lemma {:induction false} HeaderBound(s: seq<byte>)
    ensures Header(s) < TwoTo(|s|) && (Header(s) == TwoTo(|s|) - 1 <==> NonZero(s) == |s|)
  {
    if s != [] {
      HeaderBound(s[..|s| - 1]);
    }
  }

  lemma {:induction false} Weights()
    ensures TwoTo(8) == 256
  {
    assert TwoTo(4) == 16;
    assert TwoTo(8) == 256;
  }

  lemma {:induction false} BitOfSum(h: nat, n: nat, i: nat)
    requires i < n
    ensures Bit(h + TwoTo(n), i) == Bit(h, i)
  {
    if i > 0 {
      assert (h + TwoTo(n)) / 2 == h / 2 + TwoTo(n - 1);
      BitOfSum(h / 2, n - 1, i - 1);
    }
  }

  lemma {:induction false} TopBitOfSum(h: nat, n: nat)
    requires h < TwoTo(n)
    ensures Bit(h + TwoTo(n), n) && !Bit(h, n)
  {
    if n > 0 {
      assert (h + TwoTo(n)) / 2 == h / 2 + TwoTo(n - 1);
      TopBitOfSum(h / 2, n - 1);
    }
  }

  /** Bit `i` of the header tells whether byte `i` is there. */
  lemma {:induction false} HeaderBit(s: seq<byte>, i: nat)
    requires i < |s|
    ensures Bit(Header(s), i) == (s[i] != 0)
  {
    var n := |s| - 1;
    HeaderBound(s[..n]);
    if i == n {
      TopBitOfSum(Header(s[..n]), n);
    } else {
      HeaderBit(s[..n], i);
      BitOfSum(Header(s[..n]), n, i);
    }
  }

  /** A segment on its own: header, and the bytes that are not zero. */
  function Plain(s: seq<byte>): (p: seq<byte>)
    requires |s| == 8
    ensures |p| == 1 + NonZero(s)
  {
    HeaderBound(s);
    Weights();
    [Header(s)] + Kept(s)
  }

  function Flat(ss: seq<seq<byte>>): seq<byte> {
    if ss == [] then [] else Flat(ss[..|ss| - 1]) + ss[|ss| - 1]
  }

  lemma {:induction false} FlatSize(ss: seq<seq<byte>>)
    requires Segments(ss)
    ensures |Flat(ss)| == 8 * |ss|
  {
    if ss != [] {
      FlatSize(ss[..|ss| - 1]);
    }
  }

  /** A run of up to 256 segments, raw. */
  function Run(ss: seq<seq<byte>>): seq<byte>
    requires 1 <= |ss| <= 256
  {
    [255, |ss| - 1] + Flat(ss)
  }

  /** What has been packed: complete output, and the run still open. */
  datatype State = State(done: seq<byte>, run: seq<seq<byte>>)

  ghost predicate StateOk(st: State) {
    |st.run| < 256 && Segments(st.run)
  }

  function Close(st: State): (d: seq<byte>)
    requires |st.run| <= 256
  {
    if st.run == [] then st.done else st.done + Run(st.run)
  }

  /** One segment: a full one opens a run, one with at most two zeros continues it, any other ends it. */
  function Step(st: State, s: seq<byte>): State
    requires |s| == 8 && |st.run| < 256
  {
    if st.run == [] then
      if NonZero(s) == 8 then State(st.done, [s]) else State(st.done + Plain(s), [])
    else if NonZero(s) >= 6 then
      if |st.run| == 255 then State(Close(State(st.done, st.run + [s])), []) else State(st.done, st.run + [s])
    else State(Close(st) + Plain(s), [])
  }

  function Steps(ss: seq<seq<byte>>): (st: State)
    requires forall i :: 0 <= i < |ss| ==> |ss[i]| == 8
    ensures |st.run| < 256
  {
    if ss == [] then State([], []) else Step(Steps(ss[..|ss| - 1]), ss[|ss| - 1])
  }

  // ----- unpacking -----

  /** The segment a header and its bytes stand for, bits from `i` on; `None` if bytes are missing. */
  function Spread(h: nat, p: seq<byte>, i: nat): (r: Option<(seq<byte>, seq<byte>)>)
    requires i <= 8
    ensures r.Some? ==> |r.value.1| <= |p|
    decreases 8 - i
  {
    if i == 8 then Some(([], p))
    else if Bit(h, i) then
      if p == [] then None
      else match Spread(h, p[1..], i + 1)
        case None => None
        case Some((s, rest)) => Some(([p[0]] + s, rest))
    else match Spread(h, p, i + 1)
      case None => None
      case Some((s, rest)) => Some(([0] + s, rest))
  }

  function Prepend(a: seq<byte>, r: Option<seq<byte>>): Option<seq<byte>> {
    match r case None => None case Some(x) => Some(a + x)
  }

  /** `sproto_unpack`; `None` for input that ends too early. */
  function Unpack(p: seq<byte>): Option<seq<byte>>
    decreases |p|
  {
    if p == [] then Some([])
    else if p[0] == 255 then
      if |p| < 2 || |p| < RunSize(p[1]) + 2 then None
      else Prepend(p[2..RunSize(p[1]) + 2], Unpack(p[RunSize(p[1]) + 2..]))
    else
      var r := Spread(p[0], p[1..], 0);
      if r.None? then None else Prepend(r.value.0, Unpack(r.value.1))
  }

  /** The bytes a run with count byte `n` holds. */
  function RunSize(n: byte): (size: nat)
    ensures size >= 8
  {
    ((n as int) + 1) * 8
  }

  // ----- unpacking undoes packing -----

  lemma {:induction false} KeptLast(s: seq<byte>)
    ensures Kept(s) == if s == [] then [] else Kept(s[..|s| - 1]) + if s[|s| - 1] != 0 then [s[|s| - 1]] else []
  {
  }

  lemma {:induction false} WithoutLast(s: seq<byte>, i: nat)
    requires i < |s|
    ensures var n := |s| - 1;
            && s[..n][..i] == s[..i] && s[..n][i..] == s[i..n]
            && s[i..][..|s[i..]| - 1] == s[i..n] && s[i..][n - i] == s[n]
  {
  }

  /** The bytes of `s` from `i` on that are not zero. */
  lemma {:induction false} KeptSplit(s: seq<byte>, i: nat)
    requires i <= |s|
    ensures Kept(s) == Kept(s[..i]) + Kept(s[i..])
  {
    hide Kept;
    KeptLast(s);
    if i == |s| {
      assert s[..i] == s && s[i..] == [];
      KeptLast([]);
      assert Kept(s) + [] == Kept(s);
    } else {
      var n := |s| - 1;
      KeptSplit(s[..n], i);
      KeptLast(s[i..]);
      WithoutLast(s, i);
      Regroup(Kept(s[..i]), Kept(s[i..n]), if s[n] != 0 then [s[n]] else []);
    }
  }

  lemma {:induction false} KeptHead(s: seq<byte>)
    requires s != []
    ensures Kept(s) == (if s[0] != 0 then [s[0]] else []) + Kept(s[1..])
  {
    KeptSplit(s, 1);
    assert s[..1] == [s[0]] && [s[0]][..0] == [];
    assert Kept([s[0]]) == if s[0] != 0 then [s[0]] else [];
  }

  lemma {:induction false} SpreadOne(h: nat, p: seq<byte>, i: nat, b: byte, tail: seq<byte>, rest: seq<byte>,
                                     q: seq<byte>)
    requires i < 8 && Bit(h, i) == (b != 0) && Spread(h, q, i + 1) == Some((tail, rest))
    requires p == (if b != 0 then [b] else []) + q
    ensures Spread(h, p, i) == Some(([b] + tail, rest))
  {
    hide Bit;
    if b != 0 {
      assert p[1..] == q && p[0] == b;
    } else {
      assert p == q;
    }
  }

  lemma {:induction false} NothingSpread(h: nat, rest: seq<byte>)
    ensures Kept([]) + rest == rest && Spread(h, rest, 8) == Some(([], rest))
  {
  }

  /** Spreading what was kept gives the segment back. */
  lemma {:induction false} SpreadKept(s: seq<byte>, rest: seq<byte>, i: nat)
    requires |s| == 8 && i <= 8
    ensures Spread(Header(s), Kept(s[i..]) + rest, i) == Some((s[i..], rest))
    decreases 8 - i
  {
    hide Header, Kept, Bit, Spread;
    if i == 8 {
      assert s[8..] == [];
      NothingSpread(Header(s), rest);
    } else {
      HeaderBit(s, i);
      KeptHead(s[i..]);
      SpreadKept(s, rest, i + 1);
      assert s[i..][1..] == s[i + 1..] && s[i..] == [s[i]] + s[i + 1..];
      var front := if s[i] != 0 then [s[i]] else [];
      Regroup(front, Kept(s[i + 1..]), rest);
      SpreadOne(Header(s), Kept(s[i..]) + rest, i, s[i], s[i + 1..], rest, Kept(s[i + 1..]) + rest);
    }
  }

  lemma {:induction false} UnpackPlain(s: seq<byte>, rest: seq<byte>)
    requires |s| == 8 && NonZero(s) < 8
    ensures Unpack(Plain(s) + rest) == Prepend(s, Unpack(rest))
  {
    HeaderBound(s);
    Weights();
    var p := Plain(s) + rest;
    assert p[0] == Header(s) != 255 && p[1..] == Kept(s) + rest;
    SpreadKept(s, rest, 0);
    assert s[0..] == s;
  }

  lemma {:induction false} UnpackRun(ss: seq<seq<byte>>, rest: seq<byte>)
    requires 1 <= |ss| <= 256 && Segments(ss)
    ensures Unpack(Run(ss) + rest) == Prepend(Flat(ss), Unpack(rest))
  {
    FlatSize(ss);
    var p, n := Run(ss) + rest, 8 * |ss|;
    assert p[0] == 255 && p[1] == |ss| - 1 && |p| >= n + 2;
    assert p[n + 2..] == rest && p[2..n + 2] == Flat(ss);
  }

  /** Output that is a prefix of well-formed packings unpacks from the front. */
  ghost predicate Decodes(p: seq<byte>, x: seq<byte>) {
    forall rest: seq<byte> :: Unpack(p + rest) == Prepend(x, Unpack(rest))
  }

  lemma {:induction false} DecodesNext(p: seq<byte>, x: seq<byte>, q: seq<byte>, y: seq<byte>)
    requires Decodes(p, x) && Decodes(q, y)
    ensures Decodes(p + q, x + y)
  {
    hide Unpack, Prepend;
    forall rest: seq<byte> ensures Unpack((p + q) + rest) == Prepend(x + y, Unpack(rest)) {
      assert (p + q) + rest == p + (q + rest);
      assert Unpack(q + rest) == Prepend(y, Unpack(rest));
      PrependTwice(x, y, Unpack(rest));
    }
  }

  lemma {:induction false} PlainDecodes(s: seq<byte>)
    requires |s| == 8 && NonZero(s) < 8
    ensures Decodes(Plain(s), s)
  {
    forall rest: seq<byte> ensures Unpack(Plain(s) + rest) == Prepend(s, Unpack(rest)) {
      UnpackPlain(s, rest);
    }
  }

  lemma {:induction false} RunDecodes(ss: seq<seq<byte>>)
    requires 1 <= |ss| <= 256 && Segments(ss)
    ensures Decodes(Run(ss), Flat(ss))
  {
    forall rest: seq<byte> ensures Unpack(Run(ss) + rest) == Prepend(Flat(ss), Unpack(rest)) {
      UnpackRun(ss, rest);
    }
  }

  lemma {:induction false} PrependNothing(r: Option<seq<byte>>)
    ensures Prepend([], r) == r
  {
    if r.Some? {
      assert [] + r.value == r.value;
    }
  }

  lemma {:induction false} PrependTwice(x: seq<byte>, y: seq<byte>, r: Option<seq<byte>>)
    ensures Prepend(x, Prepend(y, r)) == Prepend(x + y, r)
  {
    if r.Some? {
      assert x + (y + r.value) == (x + y) + r.value;
    }
  }

  lemma {:induction false} NothingDecodes()
    ensures Decodes([], [])
  {
    forall rest: seq<byte> ensures Unpack([] + rest) == Prepend([], Unpack(rest)) {
      assert [] + rest == rest;
      PrependNothing(Unpack(rest));
    }
  }

  lemma {:induction false} FlatSnoc(ss: seq<seq<byte>>, s: seq<byte>)
    ensures Flat(ss + [s]) == Flat(ss) + s && Flat([s]) == s && Flat([]) == []
  {
    assert (ss + [s])[..|ss|] == ss;
    assert [s][..0] == [] && [] + s == s;
  }

  /** The complete output decodes to `y`, and what `y` lacks is in the open run. */
  lemma {:induction false} StepPacks(st: State, y: seq<byte>, s: seq<byte>) returns (y': seq<byte>)
    requires StateOk(st) && |s| == 8 && Decodes(st.done, y)
    ensures StateOk(Step(st, s)) && Decodes(Step(st, s).done, y') &&
            y' + Flat(Step(st, s).run) == (y + Flat(st.run)) + s
  {
    hide Decodes, Plain, Run, NonZero, Flat;
    FlatSnoc(st.run, s);
    FlatSnoc([], s);
    if st.run == [] {
      assert y + [] == y;
      if NonZero(s) == 8 {
        y' := y;
      } else {
        NotFull(s);
        PlainDecodes(s);
        DecodesNext(st.done, y, Plain(s), s);
        y' := y + s;
        assert y' + [] == y';
      }
    } else if NonZero(s) >= 6 {
      if |st.run| == 255 {
        RunDecodes(st.run + [s]);
        DecodesNext(st.done, y, Run(st.run + [s]), Flat(st.run + [s]));
        y' := y + Flat(st.run + [s]);
        assert y' + [] == y';
      } else {
        y' := y;
      }
      assert y + (Flat(st.run) + s) == (y + Flat(st.run)) + s;
    } else {
      RunDecodes(st.run);
      DecodesNext(st.done, y, Run(st.run), Flat(st.run));
      PlainDecodes(s);
      DecodesNext(Close(st), y + Flat(st.run), Plain(s), s);
      y' := (y + Flat(st.run)) + s;
      assert y' + [] == y';
    }
  }

  lemma {:induction false} NotFull(s: seq<byte>)
    requires |s| == 8 && NonZero(s) != 8
    ensures NonZero(s) < 8
  {
  }

  lemma {:induction false} StepsPack(ss: seq<seq<byte>>) returns (y: seq<byte>)
    requires Segments(ss)
    ensures StateOk(Steps(ss)) && Decodes(Steps(ss).done, y) && y + Flat(Steps(ss).run) == Flat(ss)
  {
    if ss == [] {
      NothingDecodes();
      y := [];
    } else {
      var n := |ss| - 1;
      var before := StepsPack(ss[..n]);
      assert Segment(ss[n]) && Flat(ss) == Flat(ss[..n]) + ss[n];
      hide Decodes, Step, Flat;
      y := StepPacks(Steps(ss[..n]), before, ss[n]);
    }
  }

  /** Unpacking the packed segments gives them back. */
  lemma {:induction false} UnpackUndoesPack(ss: seq<seq<byte>>)
    requires Segments(ss)
    ensures Unpack(Close(Steps(ss))) == Some(Flat(ss))
  {
    var y := StepsPack(ss);
    var st := Steps(ss);
    hide Steps, Run, Flat;
    FlatSnoc([], []);
    if st.run == [] {
      assert st.done + [] == st.done && y + [] == y && Unpack([]) == Some([]);
      assert Unpack(st.done + []) == Prepend(y, Unpack([]));
    } else {
      RunDecodes(st.run);
      DecodesNext(st.done, y, Run(st.run), Flat(st.run));
      var p, x := st.done + Run(st.run), y + Flat(st.run);
      assert p + [] == p && x + [] == x && Unpack([]) == Some([]);
      assert Unpack(p + []) == Prepend(x, Unpack([]));
    }
  }

  // ----- the size of the packed data -----

  /** The space `lpack` provides. */
  function MaxSize(sz: nat): nat {
    (sz + 2047) / 2048 * 2 + sz + 2
  }

  lemma {:induction false} RunSizeIs(ss: seq<seq<byte>>)
    requires 1 <= |ss| <= 256 && Segments(ss)
    ensures |Run(ss)| == 2 + 8 * |ss|
  {
    FlatSize(ss);
  }

  /** Runs of 256 segments cost two bytes each; a run that ends early is paid for by the short segment that ends it. */
  ghost predicate Sized(st: State, n: nat, full: nat) {
    StateOk(st) && 256 * full + |st.run| <= n && |st.done| <= 8 * (n - |st.run|) + 2 * full
  }

  lemma {:induction false} StepSized(st: State, s: seq<byte>, n: nat, full: nat) returns (full': nat)
    requires Sized(st, n, full) && |s| == 8
    ensures Sized(Step(st, s), n + 1, full')
  {
    hide Plain, Run, NonZero, Flat;
    full' := full;
    if st.run != [] {
      RunSizeIs(st.run);
      if NonZero(s) >= 6 && |st.run| == 255 {
        RunSizeIs(st.run + [s]);
        full' := full + 1;
      }
    }
  }

  lemma {:induction false} StepsSized(ss: seq<seq<byte>>) returns (full: nat)
    requires Segments(ss)
    ensures Sized(Steps(ss), |ss|, full)
  {
    if ss == [] {
      full := 0;
    } else {
      var before := StepsSized(ss[..|ss| - 1]);
      assert Segment(ss[|ss| - 1]);
      hide Step;
      full := StepSized(Steps(ss[..|ss| - 1]), ss[|ss| - 1], |ss| - 1, before);
    }
  }

  /** The packed size of `sz` bytes, the last segment padded with zeros, is within what `lpack` provides. */
  lemma {:induction false} PackedSize(ss: seq<seq<byte>>, sz: nat)
    requires Segments(ss) && |ss| == (sz + 7) / 8
    requires ss != [] ==> NonZero(ss[|ss| - 1]) <= 8 - (8 * |ss| - sz)
    ensures |Close(Steps(ss))| <= MaxSize(sz)
  {
    if ss != [] {
      var n := |ss| - 1;
      var full := StepsSized(ss[..n]);
      assert Segment(ss[n]);
      hide Steps;
      StepsNext(ss);
      LastStep(Steps(ss[..n]), ss[n], n, full, sz);
    }
  }

  lemma {:induction false} StepsNext(ss: seq<seq<byte>>)
    requires Segments(ss) && ss != []
    ensures Steps(ss) == Step(Steps(ss[..|ss| - 1]), ss[|ss| - 1])
  {
  }

  lemma {:induction false} LastStep(st: State, s: seq<byte>, n: nat, full: nat, sz: nat)
    requires Sized(st, n, full) && |s| == 8 && 8 * n < sz <= 8 * n + 8 && NonZero(s) <= 8 - (8 * n + 8 - sz)
    ensures |Close(Step(st, s))| <= MaxSize(sz)
  {
    hide Plain, Run, NonZero, Flat;
    if st.run == [] {
      RunSizeIs([s]);
    } else {
      RunSizeIs(st.run);
      RunSizeIs(st.run + [s]);
    }
  }
}
