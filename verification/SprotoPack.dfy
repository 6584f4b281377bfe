/** sproto_pack and sproto_unpack on byte buffers: room for a run is reserved first and filled when the run ends. */
module SprotoPack {
  import opened Basics
  import opened SprotoPackSpec

  /** Byte `j`, with zeros behind the data. */
  function At(x: seq<byte>, j: nat): byte {
    if j < |x| then x[j] else 0
  }

  /** `n` bytes from `i` on, padded. */
  function Window(x: seq<byte>, i: nat, n: nat): (w: seq<byte>)
    ensures |w| == n
  {
    seq<byte>(n, j requires 0 <= j < n => At(x, i + j))
  }

  /** The data as segments, the last one padded. */
  function Split(x: seq<byte>): (ss: seq<seq<byte>>)
    ensures |ss| == (|x| + 7) / 8
  {
    seq<seq<byte>>((|x| + 7) / 8, i requires 0 <= i < (|x| + 7) / 8 => Window(x, 8 * i, 8))
  }

  /** `x` padded with zeros to a multiple of 8. */
  function Padded(x: seq<byte>): seq<byte> {
    Window(x, 0, (|x| + 7) / 8 * 8)
  }

  function Packed(x: seq<byte>): seq<byte> {
    SplitSegments(x);
    Close(Steps(Split(x)))
  }

  lemma {:induction false} SplitSegments(x: seq<byte>)
    ensures Segments(Split(x))
  {
  }

  lemma {:induction false} WindowAdd(x: seq<byte>, i: nat, n: nat)
    ensures Window(x, i, n) + Window(x, i + n, 8) == Window(x, i, n + 8)
  {
  }

  /** Segments `a` to `b`, flattened, are a window of the data. */
  lemma {:induction false} FlatWindow(x: seq<byte>, a: nat, b: nat)
    requires a <= b <= (|x| + 7) / 8
    ensures Flat(Split(x)[a..b]) == Window(x, 8 * a, 8 * (b - a))
  {
    var ss := Split(x);
    if a == b {
      assert ss[a..b] == [];
    } else {
      FlatWindow(x, a, b - 1);
      assert ss[a..b][..b - 1 - a] == ss[a..b - 1] && ss[a..b][b - 1 - a] == ss[b - 1];
      WindowAdd(x, 8 * a, 8 * (b - 1 - a));
    }
  }

  /** Unpacking packed data gives the data, padded. */
  lemma {:induction false} RoundTrip(x: seq<byte>)
    ensures Unpack(Packed(x)) == Some(Padded(x))
  {
    hide Unpack, Steps, Close, Flat;
    var ss := Split(x);
    SplitSegments(x);
    UnpackUndoesPack(ss);
    FlatWindow(x, 0, |ss|);
    assert ss[0..|ss|] == ss;
  }

  /** Padding adds no byte that is not zero. */
  lemma {:induction false} PaddedNonZero(x: seq<byte>, i: nat, n: nat)
    requires n <= 8 && i < |x|
    ensures NonZero(Window(x, i, n)) <= |x| - i
  {
    if n > 0 {
      assert Window(x, i, n)[..n - 1] == Window(x, i, n - 1);
      PaddedNonZero(x, i, n - 1);
      if i + n - 1 >= |x| {
        assert Window(x, i, n)[n - 1] == At(x, i + (n - 1)) == 0;
      } else {
        assert NonZero(Window(x, i, n - 1)) <= n - 1;
      }
    }
  }

  /** After any number of segments the packed size is within what `lpack` provides. */
  lemma {:induction false} Fits(x: seq<byte>, i: nat)
    requires i <= (|x| + 7) / 8
    ensures Segments(Split(x)[..i]) && |Close(Steps(Split(x)[..i]))| <= MaxSize(|x|)
  {
    hide NonZero, Close, Steps, Window, Split, Segments, MaxSize;
    var ss := Split(x);
    var sz := if 8 * i <= |x| then 8 * i else |x|;
    SplitsInto(x, i);
    if i > 0 {
      PaddedNonZero(x, 8 * (i - 1), 8);
    }
    PackedSize(ss[..i], sz);
    MoreSize(sz, |x|);
  }

  lemma {:induction false} SplitsInto(x: seq<byte>, i: nat)
    requires i <= (|x| + 7) / 8
    ensures Segments(Split(x)[..i])
    ensures i > 0 ==> Split(x)[..i][i - 1] == Window(x, 8 * (i - 1), 8)
  {
  }

  lemma {:induction false} MoreSize(sz: nat, sz': nat)
    requires sz <= sz'
    ensures MaxSize(sz) <= MaxSize(sz')
  {
  }

  /** The worst case `lpack` allows for is enough: its error is never raised. */
  lemma {:induction false} PackedFits(x: seq<byte>)
    ensures |Packed(x)| <= MaxSize(|x|)
  {
    var ss := Split(x);
    Fits(x, |ss|);
    assert ss[..|ss|] == ss;
  }

  // ----- pack_seg, write_ff -----

  /** A segment is written raw: it is full, or it continues a run. */
  predicate Raw(s: seq<byte>, n: nat) {
    NonZero(s) == 8 || (n > 0 && NonZero(s) >= 6)
  }

  /** `pack_seg`: the bytes a segment takes; one that is not raw is written at `at`, as far as there is room. */
  method PackSeg(s: seq<byte>, buffer: array<byte>, at: nat, n: nat) returns (r: nat)
    requires |s| == 8
    modifies buffer
    ensures r == if Raw(s, n) then (if n > 0 then 8 else 10) else NonZero(s) + 1
    ensures forall j :: 0 <= j < buffer.Length && j < at ==> buffer[j] == old(buffer[j])
    ensures !Raw(s, n) && at + r <= buffer.Length ==> buffer[at..at + r] == Plain(s)
  {
    hide TwoTo, NonZero, Kept, Header;
    var header, notzero, i, to := 0, 0, 0, at + 1;
    NothingYet();
    assert s[..0] == [];
    while i < 8
      invariant 0 <= i <= 8 && notzero == NonZero(s[..i]) && header == Header(s[..i])
      invariant at + 1 <= to <= at + 1 + notzero && (to == at + 1 + notzero || to >= buffer.Length)
      invariant to == at + 1 + notzero && to <= buffer.Length ==> buffer[at + 1..to] == Kept(s[..i])
      invariant forall j :: 0 <= j < buffer.Length && j < at ==> buffer[j] == old(buffer[j])
    {
      OneByte(s, i);
      if s[i] != 0 {
        notzero, header := notzero + 1, header + TwoTo(i);
        if to < buffer.Length {
          buffer[to] := s[i];
          to := to + 1;
        }
      }
      i := i + 1;
    }
    assert s[..8] == s;
    if (notzero == 7 || notzero == 6) && n > 0 {
      notzero := 8;
    }
    if notzero == 8 {
      return if n > 0 then 8 else 10;
    }
    HeaderIsByte(s);
    if at < buffer.Length {
      buffer[at] := header;
    }
    r := notzero + 1;
    if at + r <= buffer.Length {
      assert buffer[at..at + r] == [header as byte] + buffer[at + 1..at + r];
    }
  }

  lemma {:induction false} NothingYet()
    ensures NonZero([]) == 0 && Header([]) == 0 && Kept([]) == []
  {
  }

  lemma {:induction false} OneByte(s: seq<byte>, i: nat)
    requires i < |s|
    ensures NonZero(s[..i + 1]) == NonZero(s[..i]) + (if s[i] != 0 then 1 else 0)
    ensures Header(s[..i + 1]) == Header(s[..i]) + (if s[i] != 0 then TwoTo(i) else 0)
    ensures Kept(s[..i + 1]) == Kept(s[..i]) + (if s[i] != 0 then [s[i]] else [])
  {
    assert s[..i + 1][..i] == s[..i];
  }

  lemma {:induction false} HeaderIsByte(s: seq<byte>)
    requires |s| == 8
    ensures Header(s) < 256
  {
    HeaderBound(s);
    Weights();
  }

  /** `write_ff`: the run of `n` segments from `from` on is written into the room reserved for it. */
  method WriteFF(src: seq<byte>, from: nat, buffer: array<byte>, des: nat, n: nat)
    requires 1 <= n <= 256 && from <= |src| && des + 2 + 8 * n <= buffer.Length
    modifies buffer
    ensures buffer[des..des + 2 + 8 * n] == [255, n - 1] + Window(src, from, 8 * n)
    ensures forall j :: 0 <= j < des || des + 2 + 8 * n <= j < buffer.Length ==> buffer[j] == old(buffer[j])
  {
    buffer[des], buffer[des + 1] := 255, n - 1;
    if from + n * 8 <= |src| {
      forall j | 0 <= j < n * 8 {
        buffer[des + 2 + j] := src[from + j];
      }
    } else {
      var sz := |src| - from;
      forall j | 0 <= j < sz {
        buffer[des + 2 + j] := src[from + j];
      }
      forall j | sz <= j < n * 8 {
        buffer[des + 2 + j] := 0;
      }
    }
    assert buffer[des..des + 2 + 8 * n] == [255, n - 1] + buffer[des + 2..des + 2 + 8 * n];
    ghost var w := Window(src, from, 8 * n);
    forall j | 0 <= j < 8 * n ensures buffer[des + 2 + j] == w[j] {
      assert w[j] == At(src, from + j);
    }
    assert buffer[des + 2..des + 2 + 8 * n] == w;
  }

  // ----- sproto_pack -----

  /** What the loop of `sproto_pack` knows after `i` segments: the complete output is in the buffer, and the open run is
      the last segments read, from byte `ffSrc` on, with room reserved for it at `ffDes`. */
  ghost predicate Packing(src: seq<byte>, buffer: array<byte>, i: nat, size: nat, ffSrc: nat, ffDes: nat, ffN: nat)
    reads buffer
  {
    && i <= (|src| + 7) / 8 && Segments(Split(src)[..i])
    && var st := Steps(Split(src)[..i]);
      && size == |Close(st)| && ffN == |st.run| <= i && st.run == Split(src)[i - ffN..i]
      && |st.done| <= size && (size <= buffer.Length ==> buffer[..|st.done|] == st.done)
      && (ffN > 0 ==> ffDes == |st.done| && ffSrc == 8 * (i - ffN))
  }

  /** `sproto_pack`: the packed size, and the packed bytes if the buffer holds them. */
  method Pack(src: seq<byte>, buffer: array<byte>) returns (size: nat)
    modifies buffer
    ensures size == |Packed(src)| && (size <= buffer.Length ==> buffer[..size] == Packed(src))
    ensures buffer.Length >= MaxSize(|src|) ==> size <= buffer.Length
  {
    hide Split, Steps, Step, Run, NonZero;
    size := 0;
    var ffSrc, ffDes, ffN, i := 0, 0, 0, 0;
    PackingStarts(src, buffer);
    while 8 * i < |src|
      invariant Packing(src, buffer, i, size, ffSrc, ffDes, ffN)
    {
      size, ffSrc, ffDes, ffN := PackNext(src, buffer, i, size, ffSrc, ffDes, ffN);
      i := i + 1;
    }
    assert Split(src)[..i] == Split(src);
    PackedFits(src);
    if size <= buffer.Length && ffN > 0 {
      RunIsWindow(src, i, ffN);
      FillRun(src, buffer, i, ffSrc, ffDes, ffN, Steps(Split(src)).done);
    }
  }

  /** One segment of the loop. */
  method PackNext(src: seq<byte>, buffer: array<byte>, i: nat, size: nat, ffSrc: nat, ffDes: nat, ffN: nat)
    returns (size': nat, ffSrc': nat, ffDes': nat, ffN': nat)
    requires 8 * i < |src| && Packing(src, buffer, i, size, ffSrc, ffDes, ffN)
    modifies buffer
    ensures Packing(src, buffer, i + 1, size', ffSrc', ffDes', ffN')
  {
    hide Steps, Step, Run, NonZero, Plain, Flat, Split;
    var s := Window(src, 8 * i, 8);
    ghost var st := Steps(Split(src)[..i]);
    NextSegment(src, i);
    var n := PackSeg(s, buffer, size, ffN);
    size', ffSrc', ffDes', ffN' := size + n, ffSrc, ffDes, ffN;
    StepCases(st, s);
    if ffN > 0 {
      RunSizeIs(st.run);
    }
    if n == 10 {
      ffSrc', ffDes', ffN' := 8 * i, size, 1;
    } else if n == 8 && ffN > 0 {
      ffN' := ContinueRun(src, buffer, i, size, ffSrc, ffDes, ffN);
    } else {
      EndRun(src, buffer, i, size, n, ffSrc, ffDes, ffN, st, s);
      ffN' := 0;
    }
  }

  /** A raw segment joins the open run, which is filled in when it is full. */
  method ContinueRun(src: seq<byte>, buffer: array<byte>, ghost i: nat, size: nat, ffSrc: nat, ffDes: nat, ffN: nat)
    returns (ffN': nat)
    requires 8 * i < |src| && Packing(src, buffer, i, size, ffSrc, ffDes, ffN) && ffN > 0
    requires Raw(Window(src, 8 * i, 8), ffN)
    modifies buffer
    ensures Packing(src, buffer, i + 1, size + 8, ffSrc, ffDes, ffN')
  {
    hide Steps, Step, Run, NonZero, Plain, Flat, Split, Raw;
    ghost var st := Steps(Split(src)[..i]);
    NextSegment(src, i);
    StepCases(st, Window(src, 8 * i, 8));
    RunSizeIs(st.run);
    RunGrows(src, i, ffN);
    ffN' := ffN + 1;
    if ffN' == 256 {
      if size + 8 <= buffer.Length {
        FillRun(src, buffer, i + 1, ffSrc, ffDes, 256, st.done);
      }
      ffN' := 0;
    }
  }

  /** A segment that is not raw ends the open run, which is filled in before it. */
  method EndRun(src: seq<byte>, buffer: array<byte>, ghost i: nat, size: nat, n: nat, ffSrc: nat, ffDes: nat, ffN: nat,
                ghost st: State, ghost s: seq<byte>)
    requires |s| == 8 && ffN == |st.run| <= i <= (|src| + 7) / 8 && ffN < 256 && st.run == Split(src)[i - ffN..i] &&
             Segments(st.run)
    requires size == |Close(st)| && n == |Plain(s)| &&
             (size + n <= buffer.Length ==> buffer[size..size + n] == Plain(s))
    requires |st.done| <= size && (size <= buffer.Length ==> buffer[..|st.done|] == st.done) &&
             (ffN > 0 ==> ffDes == |st.done| && ffSrc == 8 * (i - ffN))
    modifies buffer
    ensures size + n <= buffer.Length ==> buffer[..size + n] == Close(st) + Plain(s)
  {
    hide Plain, Split, Flat;
    ghost var was := buffer[..];
    if ffN > 0 && size + n <= buffer.Length {
      RunSizeIs(st.run);
      hide Run;
      FillRun(src, buffer, i, ffSrc, ffDes, ffN, st.done);
      SameBehind(was, buffer[..], size, n);
    }
    if size + n <= buffer.Length {
      TwoParts(buffer[..], size, n);
    }
  }

  lemma {:induction false} SameBehind(a: seq<byte>, b: seq<byte>, i: nat, n: nat)
    requires |a| == |b| && i + n <= |a| && forall j :: i <= j < |a| ==> b[j] == a[j]
    ensures b[i..i + n] == a[i..i + n]
  {
  }

  lemma {:induction false} TwoParts(s: seq<byte>, i: nat, n: nat)
    requires i + n <= |s|
    ensures s[..i + n] == s[..i] + s[i..i + n]
  {
  }

  lemma {:induction false} RunGrows(src: seq<byte>, i: nat, n: nat)
    requires n <= i && 8 * i < |src|
    ensures Split(src)[i + 1 - (n + 1)..i + 1] == Split(src)[i - n..i] + [Split(src)[i]]
  {
  }

  /** The room reserved for a run is filled. */
  method FillRun(src: seq<byte>, buffer: array<byte>, ghost i: nat, ffSrc: nat, ffDes: nat, ffN: nat,
                 ghost done: seq<byte>)
    requires 1 <= ffN <= 256 && ffN <= i <= (|src| + 7) / 8 && ffSrc == 8 * (i - ffN) && ffDes == |done|
    requires ffDes + 2 + 8 * ffN <= buffer.Length && buffer[..ffDes] == done
    modifies buffer
    ensures buffer[..ffDes + 2 + 8 * ffN] == done + Run(Split(src)[i - ffN..i]) &&
            |Run(Split(src)[i - ffN..i])| == 2 + 8 * ffN
    ensures forall j :: ffDes + 2 + 8 * ffN <= j < buffer.Length ==> buffer[j] == old(buffer[j])
  {
    hide Split, Run;
    RunIsWindow(src, i, ffN);
    WriteFF(src, ffSrc, buffer, ffDes, ffN);
    ghost var end := ffDes + 2 + 8 * ffN;
    assert buffer[..end] == buffer[..ffDes] + buffer[ffDes..end];
    assert buffer[..ffDes] == done;
  }

  lemma {:induction false} NextSegment(src: seq<byte>, i: nat)
    requires 8 * i < |src|
    ensures Segments(Split(src)[..i]) && Segments(Split(src)[..i + 1])
    ensures Split(src)[i] == Window(src, 8 * i, 8)
    ensures Split(src)[..i + 1] == Split(src)[..i] + [Split(src)[i]]
    ensures Steps(Split(src)[..i + 1]) == Step(Steps(Split(src)[..i]), Window(src, 8 * i, 8))
  {
    assert Split(src)[..i + 1][..i] == Split(src)[..i];
  }

  /** The three ways a segment goes, by what `pack_seg` returns. */
  lemma {:induction false} StepCases(st: State, s: seq<byte>)
    requires StateOk(st) && |s| == 8
    ensures Raw(s, |st.run|) && st.run == [] ==> Step(st, s) == State(st.done, [s])
    ensures Raw(s, |st.run|) && |st.run| == 255 ==> Step(st, s) == State(st.done + Run(st.run + [s]), [])
    ensures Raw(s, |st.run|) && 1 <= |st.run| < 255 ==> Step(st, s) == State(st.done, st.run + [s])
    ensures !Raw(s, |st.run|) ==> Step(st, s) == State(Close(st) + Plain(s), [])
    ensures !Raw(s, |st.run|) && st.run != [] ==> NonZero(s) < 6
    ensures |Close(Step(st, s))| == |Close(st)| + if Raw(s, |st.run|) then (if st.run == [] then 10 else 8)
            else NonZero(s) + 1
  {
    hide NonZero, Run, Plain;
    if st.run == [] {
      assert Segments([s]);
      RunSizeIs([s]);
    } else {
      assert Segments(st.run + [s]);
      RunSizeIs(st.run);
      RunSizeIs(st.run + [s]);
    }
  }

  lemma {:induction false} PackingStarts(src: seq<byte>, buffer: array<byte>)
    ensures Packing(src, buffer, 0, 0, 0, 0, 0)
  {
    assert Split(src)[..0] == [];
  }

  lemma {:induction false} RunIsWindow(src: seq<byte>, i: nat, n: nat)
    requires 1 <= n <= i <= (|src| + 7) / 8 && n <= 256
    ensures Run(Split(src)[i - n..i]) == [255, n - 1] + Window(src, 8 * (i - n), 8 * n)
    ensures |Run(Split(src)[i - n..i])| == 2 + 8 * n
  {
    FlatWindow(src, i - n, i);
  }

  // ----- sproto_unpack -----

  /** What has been written when `out` has been produced: all of it, if there was room; `room` is what is left, and not
      positive once there was too little. */
  ghost predicate Written(buffer: array<byte>, out: seq<byte>, room: int)
    reads buffer
  {
    if |out| <= buffer.Length then room == buffer.Length - |out| && buffer[..|out|] == out else room <= 0
  }

  function Glue(a: seq<byte>, r: Option<(seq<byte>, seq<byte>)>): Option<(seq<byte>, seq<byte>)> {
    match r case None => None case Some((s, rest)) => Some((a + s, rest))
  }

  lemma {:induction false} GlueOne(h: nat, p: seq<byte>, i: nat, a: seq<byte>)
    requires i < 8
    ensures Bit(h, i) && p == [] ==> Spread(h, p, i) == None
    ensures Bit(h, i) && p != [] ==> Glue(a, Spread(h, p, i)) == Glue(a + [p[0]], Spread(h, p[1..], i + 1))
    ensures !Bit(h, i) ==> Glue(a, Spread(h, p, i)) == Glue(a + [0], Spread(h, p, i + 1))
  {
    hide Bit;
    if Bit(h, i) {
      if p != [] {
        GlueTwice(a, [p[0]], Spread(h, p[1..], i + 1));
      }
    } else {
      GlueTwice(a, [0], Spread(h, p, i + 1));
    }
  }

  lemma {:induction false} GlueTwice(a: seq<byte>, b: seq<byte>, r: Option<(seq<byte>, seq<byte>)>)
    ensures Glue(a, Glue(b, r)) == Glue(a + b, r)
  {
    if r.Some? {
      assert a + (b + r.value.0) == (a + b) + r.value.0;
    }
  }

  lemma {:induction false} GlueNothing(r: Option<(seq<byte>, seq<byte>)>)
    ensures Glue([], r) == r
  {
    if r.Some? {
      assert [] + r.value.0 == r.value.0;
    }
  }

  /** One byte of output, if there is room. */
  method Write(buffer: array<byte>, b: byte, room: int, ghost out: seq<byte>) returns (room': int)
    requires Written(buffer, out, room)
    modifies buffer
    ensures Written(buffer, out + [b], room')
  {
    room' := room;
    if room > 0 {
      buffer[buffer.Length - room] := b;
      room' := room - 1;
      if |out| < buffer.Length {
        assert buffer[..|out| + 1] == buffer[..|out|] + [b];
      }
    }
  }

  /** A segment with a header; `pos'` is negative if bytes are missing. */
  method UnpackSegment(src: seq<byte>, pos: nat, header: byte, buffer: array<byte>, room: int, ghost out: seq<byte>)
    returns (pos': int, room': int, ghost s: seq<byte>)
    requires pos <= |src| && Written(buffer, out, room)
    modifies buffer
    ensures pos' < 0 <==> Spread(header, src[pos..], 0).None?
    ensures pos' >= 0 ==> pos <= pos' <= |src| && |s| == 8 && Written(buffer, out + s, room')
    ensures pos' >= 0 ==> Spread(header, src[pos..], 0) == Some((s, src[pos'..]))
  {
    hide Spread, Bit, Written;
    s, pos', room' := [], pos, room;
    var i := 0;
    assert out + s == out;
    GlueNothing(Spread(header, src[pos..], 0));
    while i < 8
      invariant 0 <= i <= 8 && pos <= pos' <= |src| && |s| == i && Written(buffer, out + s, room')
      invariant Spread(header, src[pos..], 0) == Glue(s, Spread(header, src[pos'..], i))
    {
      var p := src[pos'..];
      GlueOne(header, p, i, s);
      var nz := Bit(header, i);
      if nz {
        if pos' >= |src| {
          return -1, room', s;
        }
        assert p[0] == src[pos'] && p[1..] == src[pos' + 1..];
        assert (out + s) + [src[pos']] == out + (s + [src[pos']]);
        room' := Write(buffer, src[pos'], room', out + s);
        s, pos' := s + [src[pos']], pos' + 1;
      } else {
        assert (out + s) + [0] == out + (s + [0]);
        room' := Write(buffer, 0, room', out + s);
        s := s + [0];
      }
      i := i + 1;
    }
    SpreadDone(header, src[pos'..], s);
  }

  lemma {:induction false} SpreadDone(h: nat, p: seq<byte>, s: seq<byte>)
    ensures Glue(s, Spread(h, p, 8)) == Some((s, p))
  {
    assert s + [] == s;
  }

  /** `sproto_unpack`: the size of the data, or -1 for malformed input; the data itself if the buffer has room for
      it. */
  method UnpackTo(src: seq<byte>, buffer: array<byte>) returns (size: int)
    modifies buffer
    ensures size == -1 <==> Unpack(src).None?
    ensures Unpack(src).Some? ==> size == |Unpack(src).value|
    ensures Unpack(src).Some? && size <= buffer.Length ==> buffer[..size] == Unpack(src).value
  {
    hide Unpack, Spread, RunSize, Written;
    ghost var out: seq<byte> := [];
    var pos, room: int := 0, buffer.Length;
    size := 0;
    NothingWritten(buffer);
    PrependNothing(Unpack(src));
    assert src[0..] == src;
    while pos < |src|
      invariant 0 <= pos <= |src| && size == |out| && Written(buffer, out, room)
      invariant Unpack(src) == Prepend(out, Unpack(src[pos..]))
    {
      var header := src[pos];
      UnpackNext(src, pos, out);
      if header == 255 {
        if pos + 1 >= |src| || |src| - pos < RunSize(src[pos + 1]) + 2 {
          return -1;
        }
        var n := RunSize(src[pos + 1]);
        room := WriteRun(src, pos + 2, n, buffer, room, out);
        out := out + src[pos + 2..pos + 2 + n];
        pos, size := pos + 2 + n, size + n;
      } else {
        ghost var s;
        var next;
        next, room, s := UnpackSegment(src, pos + 1, header, buffer, room, out);
        if next < 0 {
          return -1;
        }
        out := out + s;
        pos, size := next, size + 8;
      }
    }
    UnpackEnd(src[pos..], out);
    WrittenOut(buffer, out, room);
  }

  lemma {:induction false} NothingWritten(buffer: array<byte>)
    ensures Written(buffer, [], buffer.Length)
  {
  }

  lemma {:induction false} WrittenOut(buffer: array<byte>, out: seq<byte>, room: int)
    requires Written(buffer, out, room)
    ensures |out| <= buffer.Length ==> buffer[..|out|] == out
  {
  }

  lemma {:induction false} UnpackEnd(p: seq<byte>, out: seq<byte>)
    requires p == []
    ensures Prepend(out, Unpack(p)) == Some(out)
  {
    assert out + [] == out;
  }

  /** How unpacking goes on from a header. */
  lemma {:induction false} UnpackNext(src: seq<byte>, pos: nat, out: seq<byte>)
    requires pos < |src|
    ensures src[pos] == 255 && (pos + 1 >= |src| || |src| - pos < RunSize(src[pos + 1]) + 2) ==>
            Unpack(src[pos..]).None?
    ensures src[pos] == 255 && pos + 1 < |src| && |src| - pos >= RunSize(src[pos + 1]) + 2 ==>
              var n := RunSize(src[pos + 1]);
              Prepend(out, Unpack(src[pos..])) == Prepend(out + src[pos + 2..pos + 2 + n], Unpack(src[pos + 2 + n..]))
    ensures src[pos] != 255 && Spread(src[pos], src[pos + 1..], 0).None? ==> Unpack(src[pos..]).None?
    ensures src[pos] != 255 && Spread(src[pos], src[pos + 1..], 0).Some? ==>
              var (s, rest) := Spread(src[pos], src[pos + 1..], 0).value;
              Prepend(out, Unpack(src[pos..])) == Prepend(out + s, Unpack(rest))
  {
    hide RunSize, Spread;
    var p := src[pos..];
    assert p[0] == src[pos] && p[1..] == src[pos + 1..];
    if src[pos] == 255 {
      if |p| >= 2 && |p| >= RunSize(p[1]) + 2 {
        var n := RunSize(p[1]);
        assert p[2..n + 2] == src[pos + 2..pos + 2 + n] && p[n + 2..] == src[pos + 2 + n..];
        PrependTwice(out, p[2..n + 2], Unpack(p[n + 2..]));
      }
    } else {
      var r := Spread(p[0], p[1..], 0);
      if r.Some? {
        PrependTwice(out, r.value.0, Unpack(r.value.1));
      }
    }
  }

  /** A run is copied if there is room for all of it. */
  method WriteRun(src: seq<byte>, pos: nat, n: nat, buffer: array<byte>, room: int, ghost out: seq<byte>)
    returns (room': int)
    requires pos + n <= |src| && n > 0 && Written(buffer, out, room)
    modifies buffer
    ensures Written(buffer, out + src[pos..pos + n], room')
  {
    ghost var was := buffer[..];
    if room >= n {
      var at := buffer.Length - room;
      forall j | 0 <= j < n {
        buffer[at + j] := src[pos + j];
      }
      assert buffer[..at] == was[..at];
      assert buffer[..at + n] == buffer[..at] + src[pos..pos + n];
    }
    room' := room - n;
  }
}
