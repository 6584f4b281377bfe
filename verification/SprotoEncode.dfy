/** The encoder of sproto.c, writing into one buffer: numbers of an array are widened in place, nested records are
    written where they will stay, and the header is filled in beside the data. */
module SprotoEncode {
  import opened Basics
  import opened SprotoSpec
  import opened SprotoRoundTrip
  import opened SprotoNeed

  /** Only the bytes from `at` to `end` have changed. */
  ghost predicate Kept(now: seq<byte>, was: seq<byte>, at: int, end: int) {
    |was| == |now| && forall l :: 0 <= l < |now| && !(at <= l < end) ==> now[l] == was[l]
  }

  lemma {:induction false} KeptSlice(now: seq<byte>, was: seq<byte>, at: int, end: int, i: nat, j: nat)
    requires Kept(now, was, at, end) && i <= j <= |now| && (j <= at || end <= i)
    ensures now[i..j] == was[i..j]
  {
  }

  lemma {:induction false} NothingChanged(s: seq<byte>, at: int, end: int)
    ensures Kept(s, s, at, end)
  {
  }

  lemma {:induction false} SizedLength(s: seq<byte>)
    ensures |Sized(s)| == 4 + |s|
  {
  }

  lemma {:induction false} KeptBoth(now: seq<byte>, mid: seq<byte>, was: seq<byte>, at1: int, end1: int, at2: int,
                                    end2: int, at: int,
                                    end: int)
    requires Kept(mid, was, at1, end1) && Kept(now, mid, at2, end2)
    requires at <= at1 && end1 <= end && at <= at2 && end2 <= end
    ensures Kept(now, was, at, end) && |now| == |was|
  {
  }

  /** The bytes of `s`, written one after the other. */
  method Put(buf: array<byte>, at: nat, s: seq<byte>)
    requires at + |s| <= buf.Length
    modifies buf
    ensures buf[at..at + |s|] == s && Kept(buf[..], old(buf[..]), at, at + |s|)
  {
    forall i | 0 <= i < |s| {
      buf[at + i] := s[i];
    }
  }

  // ----- arrays of numbers -----

  function Sign(negative: bool): (s: seq<byte>)
    ensures |s| == 4
  {
    if negative then [0xFF, 0xFF, 0xFF, 0xFF] else [0, 0, 0, 0]
  }

  /** `n` moved up by `j` bytes. */
  function Up(n: nat, j: nat): nat {
    if j == 0 then n else 256 * Up(n, j - 1)
  }

  /** The lowest byte of a number that is written in `j` bytes and more. */
  lemma {:induction false} OneByteOff(lo: nat, hi: nat, j: nat, k: nat)
    requires lo < TwoFiftySixTo(j) && j > 0
    ensures lo / 256 < TwoFiftySixTo(j - 1)
    ensures LittleEndian(lo, j) == [lo % 256] + LittleEndian(lo / 256, j - 1)
    ensures LittleEndian(lo + Up(hi, j), j + k) == [lo % 256] + LittleEndian(lo / 256 + Up(hi, j - 1), j - 1 + k)
  {
    ByteAbove(lo, Up(hi, j - 1));
  }

  lemma {:induction false} ByteAbove(lo: nat, hi: nat)
    ensures (lo + 256 * hi) % 256 == lo % 256 && (lo + 256 * hi) / 256 == lo / 256 + hi
  {
  }

  /** A number that is written in `j` bytes and more. */
  lemma {:induction false} Joined(lo: nat, hi: nat, j: nat, k: nat)
    requires lo < TwoFiftySixTo(j)
    ensures LittleEndian(lo + Up(hi, j), j + k) == LittleEndian(lo, j) + LittleEndian(hi, k)
    decreases j
  {
    if j == 0 {
      assert [] + LittleEndian(hi, k) == LittleEndian(hi, k);
    } else {
      hide LittleEndian, Up, TwoFiftySixTo;
      OneByteOff(lo, hi, j, k);
      Joined(lo / 256, hi, j - 1, k);
      Regroup([lo % 256], LittleEndian(lo / 256, j - 1), LittleEndian(hi, k));
    }
  }

  lemma {:induction false} FourUp(n: nat)
    ensures TwoFiftySixTo(4) == WORD && Up(n, 4) == WORD * n
  {
    assert TwoFiftySixTo(2) == 0x1_0000;
    assert Up(n, 1) == 256 * n;
    assert Up(n, 3) == 256 * Up(n, 2) == 256 * (256 * Up(n, 1));
  }

  lemma {:induction false} Fills()
    ensures LittleEndian(0, 4) == Sign(false) && LittleEndian(WORD - 1, 4) == Sign(true)
  {
    assert LittleEndian(0, 2) == [0, 0];
    assert LittleEndian(0xFFFF, 2) == [0xFF, 0xFF];
    assert LittleEndian(WORD - 1, 4) == [0xFF] + ([0xFF] + LittleEndian(0xFFFF, 2));
    assert LittleEndian(0, 4) == [0] + ([0] + LittleEndian(0, 2));
  }

  lemma {:induction false} TopByte(n: nat)
    requires n < WORD
    ensures LittleEndian(n, 4)[3] >= 0x80 <==> n >= 0x8000_0000
  {
    assert LittleEndian(n, 4) == [n % 256] + ([n / 256 % 256] + LittleEndian(n / 256 / 256, 2));
    assert LittleEndian(n / 256 / 256, 2) == [n / 256 / 256 % 256, n / 256 / 256 / 256 % 256];
  }

  lemma {:induction false} EightBytes(lo: u32, hi: u32)
    ensures LittleEndian(lo + WORD * hi, 8) == LittleEndian(lo, 4) + LittleEndian(hi, 4)
  {
    hide LittleEndian;
    FourUp(hi);
    Joined(lo, hi, 4, 4);
  }

  /** `uint32_to_uint64`: four bytes and their sign are the eight bytes of the same number. */
  lemma {:induction false} Widened(v: Value)
    requires v.Int? && Fits32(v.n)
    ensures var b := NumberBytes(v, 4); NumberBytes(v, 8) == b + Sign(b[3] >= 0x80)
  {
    hide LittleEndian;
    var lo := Low32(v.n);
    Fills();
    TopByte(lo);
    if v.n < 0 {
      assert Low64(v.n) == lo + WORD * (WORD - 1);
      EightBytes(lo, WORD - 1);
    } else {
      assert Low64(v.n) == lo + WORD * 0;
      EightBytes(lo, 0);
    }
  }

  lemma {:induction false} NumbersSnoc(vs: seq<Value>, v: Value, width: nat)
    ensures Numbers(vs + [v], width) == Numbers(vs, width) + NumberBytes(v, width)
    decreases vs
  {
    if vs == [] {
      assert [] + [v] == [v] && [v][1..] == [];
    } else {
      assert (vs + [v])[1..] == vs[1..] + [v];
      NumbersSnoc(vs[1..], v, width);
      Regroup(NumberBytes(vs[0], width), Numbers(vs[1..], width), NumberBytes(v, width));
    }
  }

  lemma {:induction false} NoNumbers(width: nat)
    ensures Numbers([], width) == []
  {
  }

  /** The last number of those written, and the ones before it. */
  lemma {:induction false} LastNumber(s: seq<byte>, vs: seq<Value>, v: Value, width: nat)
    requires s == Numbers(vs + [v], width)
    ensures |Numbers(vs, width)| == width * |vs| <= |s|
    ensures s[..width * |vs|] == Numbers(vs, width) && s[width * |vs|..] == NumberBytes(v, width)
  {
    hide Numbers, NumberBytes;
    NumbersSnoc(vs, v, width);
    NumbersLong(vs, width);
  }

  /** The first of the numbers not widened yet joins the widened ones. */
  lemma {:induction false} FirstNumber(vs: seq<Value>, i: nat, width: nat)
    requires i < |vs|
    ensures Numbers(vs[i..], width) == NumberBytes(vs[i], width) + Numbers(vs[i + 1..], width)
  {
    assert vs[i..][1..] == vs[i + 1..];
  }

  /** The loop that widens the numbers written so far, from the last down: each goes further up than the ones below it
      reach. */
  method Widen(buf: array<byte>, base: nat, vs: seq<Value>)
    requires base + 8 * |vs| <= buf.Length && buf[base..base + 4 * |vs|] == Numbers(vs, 4)
    requires forall i :: 0 <= i < |vs| ==> vs[i].Int? && Fits32(vs[i].n)
    modifies buf
    ensures buf[base..base + 8 * |vs|] == Numbers(vs, 8) && Kept(buf[..], old(buf[..]), base, base + 8 * |vs|)
  {
    hide NumberBytes, Numbers;
    var i := |vs|;
    ghost var was := buf[..];
    assert vs[..i] == vs && vs[i..] == [];
    NoNumbers(8);
    while i > 0
      invariant 0 <= i <= |vs| && Kept(buf[..], was, base, base + 8 * |vs|)
      invariant buf[base..base + 4 * i] == Numbers(vs[..i], 4)
      invariant buf[base + 8 * i..base + 8 * |vs|] == Numbers(vs[i..], 8)
    {
      i := i - 1;
      WidenOne(buf, base, vs, i);
    }
    assert vs[0..] == vs;
  }

  lemma {:induction false} LastOfFours(s: seq<byte>, base: nat, vs: seq<Value>, i: nat)
    requires i < |vs| && base + 4 * i + 4 <= |s| && s[base..base + 4 * i + 4] == Numbers(vs[..i + 1], 4)
    ensures s[base..base + 4 * i] == Numbers(vs[..i], 4)
    ensures s[base + 4 * i..base + 4 * i + 4] == NumberBytes(vs[i], 4)
  {
    hide Numbers, NumberBytes;
    var fours := s[base..base + 4 * i + 4];
    assert vs[..i + 1] == vs[..i] + [vs[i]];
    LastNumber(fours, vs[..i], vs[i], 4);
    assert fours[..4 * i] == s[base..base + 4 * i] && fours[4 * i..] == s[base + 4 * i..base + 4 * i + 4];
  }

  method WidenOne(buf: array<byte>, base: nat, vs: seq<Value>, i: nat)
    requires i < |vs| && base + 8 * |vs| <= buf.Length && vs[i].Int? && Fits32(vs[i].n)
    requires buf[base..base + 4 * i + 4] == Numbers(vs[..i + 1], 4) &&
             buf[base + 8 * i + 8..base + 8 * |vs|] == Numbers(vs[i + 1..], 8)
    modifies buf
    ensures buf[base..base + 4 * i] == Numbers(vs[..i], 4) && buf[base + 8 * i..base + 8 * |vs|] == Numbers(vs[i..], 8)
    ensures Kept(buf[..], old(buf[..]), base + 8 * i, base + 8 * i + 8)
  {
    hide NumberBytes, Numbers, Sign;
    var from, to := base + 4 * i, base + 8 * i;
    var four := buf[from..from + 4];
    ghost var s := buf[..];
    LastOfFours(s, base, vs, i);
    CopyAndExtend(buf, to, four);
    Widened(vs[i]);
    FirstNumber(vs, i, 8);
    KeptSlice(buf[..], s, to, to + 8, base, from);
    KeptSlice(buf[..], s, to, to + 8, to + 8, base + 8 * |vs|);
    Join(buf[..], to, to + 8, base + 8 * |vs|);
  }

  /** `memcpy` of four bytes, and the four that repeat their sign. */
  method CopyAndExtend(buf: array<byte>, to: nat, four: seq<byte>)
    requires |four| == 4 && to + 8 <= buf.Length
    modifies buf
    ensures buf[to..to + 8] == four + Sign(four[3] >= 0x80) && Kept(buf[..], old(buf[..]), to, to + 8)
  {
    Put(buf, to, four);
    assert buf[to + 3] == buf[to..to + 4][3];
    Put(buf, to + 4, Sign(buf[to + 3] >= 0x80));
    assert buf[to..to + 8] == buf[to..to + 4] + buf[to + 4..to + 8];
  }

  /** The state of the loop of `encode_integer_array` after `j` numbers. */
  ghost predicate Written(buf: array<byte>, base: nat, k: Kind, vs: seq<Value>, j: nat, intlen: nat, p: nat)
    reads buf
  {
    && j <= |vs| && base <= p <= buf.Length && p == base + intlen * j && buf[base..p] == Numbers(vs[..j], intlen)
    && (intlen == 4 || (intlen == 8 && j > 0)) && (intlen == 4 ==> j == 0 || k == Integer)
    && (k == Integer && intlen == 4 ==> AllFit32(vs[..j])) && (k == Integer && intlen == 8 ==> !AllFit32(vs[..j]))
  }

  lemma {:induction false} FitSnoc(vs: seq<Value>, j: nat)
    requires j < |vs|
    ensures AllFit32(vs[..j + 1]) <==> AllFit32(vs[..j]) && (vs[j].Int? ==> Fits32(vs[j].n))
    ensures AllFit32(vs[..j]) ==> forall i :: 0 <= i < j && vs[i].Int? ==> Fits32(vs[i].n)
    decreases vs
  {
    if j == 0 {
      assert vs[..0] == [] && vs[..1][1..] == [];
    } else {
      assert vs[..j + 1][1..] == vs[1..][..j] && vs[..j][1..] == vs[1..][..j - 1];
      FitSnoc(vs[1..], j - 1);
      forall i | 0 <= i < j && vs[i].Int? && AllFit32(vs[..j]) ensures Fits32(vs[i].n) {
        if i > 0 {
          assert vs[1..][i - 1] == vs[i];
        }
      }
    }
  }

  lemma {:induction false} ElementTyped(schema: Schema, k: Kind, vs: seq<Value>, j: nat)
    requires AllTyped(schema, k, vs) && j < |vs|
    ensures Typed(schema, k, vs[j])
    decreases vs
  {
    if j > 0 {
      ElementTyped(schema, k, vs[1..], j - 1);
    }
  }

  lemma {:induction false} AllInts(schema: Schema, vs: seq<Value>)
    requires AllTyped(schema, Integer, vs)
    ensures forall i :: 0 <= i < |vs| ==> vs[i].Int?
  {
    forall i | 0 <= i < |vs| ensures vs[i].Int? {
      ElementTyped(schema, Integer, vs, i);
    }
  }

  /** One number: in the width of the array so far, or, when it needs 64 bits and the others had 32, after these are
      widened. */
  method PutNumber(buf: array<byte>, base: nat, end: nat, ghost schema: Schema, k: Kind, vs: seq<Value>, j: nat,
                   intlen: nat, p: nat)
    returns (ok: bool, intlen': nat, p': nat)
    requires j < |vs| && end <= buf.Length && p <= end && Written(buf, base, k, vs, j, intlen, p)
    requires (k == Integer || k == Double) && AllTyped(schema, k, vs)
    modifies buf
    ensures Kept(buf[..], old(buf[..]), base, end)
    ensures ok ==> p' <= end && Written(buf, base, k, vs, j + 1, intlen', p')
    ensures base + 8 * |vs| <= end ==> ok
  {
    hide Numbers, NumberBytes, AllFit32, LittleEndian, Kept;
    var v := vs[j];
    ElementTyped(schema, k, vs, j);
    NothingChanged(buf[..], base, end);
    if end - p < 8 {
      return false, intlen, p;
    }
    if k == Integer && Fits32(v.n) {
      PutNarrow(buf, base, end, k, vs, j, intlen, p);
      ok, intlen', p' := true, intlen, p + intlen;
    } else if intlen == 4 && end - (p + 4 * j) < 8 {
      ok, intlen', p' := false, intlen, p;
    } else {
      PutWide(buf, base, end, schema, k, vs, j, intlen, p);
      ok, intlen', p' := true, 8, base + 8 * j + 8;
    }
  }

  /** A number that fits 32 bits. */
  method PutNarrow(buf: array<byte>, base: nat, end: nat, k: Kind, vs: seq<Value>, j: nat, intlen: nat, p: nat)
    requires j < |vs| && end <= buf.Length && p + 8 <= end && Written(buf, base, k, vs, j, intlen, p)
    requires k == Integer && vs[j].Int? && Fits32(vs[j].n)
    modifies buf
    ensures Kept(buf[..], old(buf[..]), base, end) && Written(buf, base, k, vs, j + 1, intlen, p + intlen)
  {
    hide Numbers, NumberBytes, AllFit32;
    FitSnoc(vs, j);
    PutFour(buf, p, vs[j], intlen == 8);
    assert buf[base..p] == old(buf[base..p]);
    NextNumber(buf[..], base, vs, j, intlen, p);
  }

  /** A number that takes 64 bits: those before it are widened if they have 32. */
  method PutWide(buf: array<byte>, base: nat, end: nat, ghost schema: Schema, k: Kind, vs: seq<Value>, j: nat,
                 intlen: nat, p: nat)
    requires j < |vs| && base + 8 * j + 8 <= end <= buf.Length && Written(buf, base, k, vs, j, intlen, p)
    requires (k == Integer || k == Double) && AllTyped(schema, k, vs)
    requires k == Integer ==> vs[j].Int? && !Fits32(vs[j].n)
    modifies buf
    ensures Kept(buf[..], old(buf[..]), base, end) && Written(buf, base, k, vs, j + 1, 8, base + 8 * j + 8)
  {
    hide Numbers, NumberBytes, AllFit32;
    FitSnoc(vs, j);
    var wide := base + 8 * j;
    if intlen == 4 {
      WidenAll(buf, base, schema, k, vs, j);
    }
    ghost var mid := buf[..];
    assert mid[base..wide] == Numbers(vs[..j], 8);
    Put(buf, wide, NumberBytes(vs[j], 8));
    assert buf[base..wide] == mid[base..wide];
    NextNumber(buf[..], base, vs, j, 8, wide);
  }

  lemma {:induction false} NextNumber(s: seq<byte>, base: nat, vs: seq<Value>, j: nat, width: nat, p: nat)
    requires j < |vs| && base <= p <= p + width <= |s| && s[base..p] == Numbers(vs[..j], width)
    requires s[p..p + width] == NumberBytes(vs[j], width)
    ensures s[base..p + width] == Numbers(vs[..j + 1], width)
  {
    hide Numbers, NumberBytes;
    assert vs[..j + 1] == vs[..j] + [vs[j]];
    NumbersSnoc(vs[..j], vs[j], width);
    assert s[base..p + width] == s[base..p] + s[p..p + width];
  }

  /** A number that fits four bytes, in four or, with its sign, in eight. */
  method PutFour(buf: array<byte>, p: nat, v: Value, wide: bool)
    requires v.Int? && Fits32(v.n) && p + 8 <= buf.Length
    modifies buf
    ensures Kept(buf[..], old(buf[..]), p, p + 8)
    ensures var w := if wide then 8 else 4; buf[p..p + w] == NumberBytes(v, w)
  {
    hide NumberBytes;
    Put(buf, p, NumberBytes(v, 4));
    if wide {
      assert buf[p + 3] == buf[p..p + 4][3];
      Put(buf, p + 4, Sign(buf[p + 3] >= 0x80));
      Widened(v);
      assert buf[p..p + 8] == buf[p..p + 4] + buf[p + 4..p + 8];
    }
  }

  /** The numbers so far, widened; there may be none. */
  method WidenAll(buf: array<byte>, base: nat, ghost schema: Schema, ghost k: Kind, vs: seq<Value>, j: nat)
    requires j <= |vs| && base + 8 * j <= buf.Length && buf[base..base + 4 * j] == Numbers(vs[..j], 4)
    requires AllTyped(schema, k, vs) && (j > 0 ==> k == Integer && AllFit32(vs[..j]))
    modifies buf
    ensures buf[base..base + 8 * j] == Numbers(vs[..j], 8) && Kept(buf[..], old(buf[..]), base, base + 8 * j)
  {
    hide Numbers, AllFit32;
    if j > 0 {
      AllInts(schema, vs);
      FitsEach(vs, j);
    }
    Widen(buf, base, vs[..j]);
  }

  lemma {:induction false} FitsEach(vs: seq<Value>, j: nat)
    requires j <= |vs| && AllFit32(vs[..j])
    ensures forall i :: 0 <= i < j && vs[i].Int? ==> Fits32(vs[i].n)
  {
    if j < |vs| {
      FitSnoc(vs, j);
    } else if j > 0 {
      FitSnoc(vs, j - 1);
      assert vs[..j] == vs;
    }
  }

  /** `encode_integer_array`. */
  method EncodeNumbers(buf: array<byte>, at: nat, end: nat, ghost schema: Schema, k: Kind, vs: seq<Value>)
    returns (ok: bool, p: nat)
    requires at <= end <= buf.Length && (k == Integer || k == Double) && AllTyped(schema, k, vs)
    modifies buf
    ensures Kept(buf[..], old(buf[..]), at, end)
    ensures ok ==> at <= p <= end && buf[at..p] == Elements(schema, k, vs)
    ensures at + NeedElements(schema, k, vs) <= end ==> ok
  {
    hide Numbers, NumberBytes, AllFit32;
    if end - at < 1 {
      return false, at;
    }
    var intlen, j := 4, 0;
    p := at + 1;
    NoNumbers(4);
    NothingFits(vs);
    while j < |vs|
      invariant j <= |vs| && p <= end && Written(buf, at + 1, k, vs, j, intlen, p) &&
                Kept(buf[..], old(buf[..]), at, end)
    {
      ok, intlen, p := PutNumber(buf, at + 1, end, schema, k, vs, j, intlen, p);
      if !ok {
        return;
      }
      j := j + 1;
    }
    assert vs[..j] == vs;
    if p == at + 1 {
      return true, at;
    }
    buf[at] := intlen;
    assert buf[at..p] == [intlen as byte] + buf[at + 1..p];
    ok := true;
  }

  lemma {:induction false} NothingFits(vs: seq<Value>)
    ensures vs[..0] == [] && AllFit32(vs[..0])
  {
  }

  // ----- arrays of other things -----

  lemma {:induction false} FlagsSnoc(vs: seq<Value>, v: Value)
    ensures Flags(vs + [v]) == Flags(vs) + [if v.Flag? && v.b then 1 else 0]
    decreases vs
  {
    if vs == [] {
      assert [] + [v] == [v] && [v][1..] == [];
    } else {
      assert (vs + [v])[1..] == vs[1..] + [v];
      FlagsSnoc(vs[1..], v);
    }
  }

  /** The branch of `encode_array` for booleans. */
  method EncodeFlags(buf: array<byte>, at: nat, end: nat, ghost schema: Schema, vs: seq<Value>)
    returns (ok: bool, p: nat)
    requires at <= end <= buf.Length && AllTyped(schema, Boolean, vs)
    modifies buf
    ensures Kept(buf[..], old(buf[..]), at, end)
    ensures ok ==> at <= p <= end && buf[at..p] == Flags(vs)
    ensures at + |vs| <= end ==> ok
  {
    p := at;
    var j := 0;
    while j < |vs|
      invariant j <= |vs| && p == at + j <= end && buf[at..p] == Flags(vs[..j]) && Kept(buf[..], old(buf[..]), at, end)
    {
      if end - p < 1 {
        return false, p;
      }
      ElementTyped(schema, Boolean, vs, j);
      assert vs[..j + 1] == vs[..j] + [vs[j]];
      FlagsSnoc(vs[..j], vs[j]);
      buf[p] := if vs[j].b then 1 else 0;
      assert buf[at..p + 1] == buf[at..p] + [buf[p]];
      p, j := p + 1, j + 1;
    }
    assert vs[..j] == vs;
    ok := true;
  }

  /** What the callback writes for a text or a record: the size, or -1. */
  method EncodeBody(buf: array<byte>, at: nat, end: nat, schema: Schema, k: Kind, v: Value) returns (r: int)
    requires at <= end <= buf.Length && ValidSchema(schema) && Typed(schema, k, v) && (k.Text? || k.Struct?)
    modifies buf
    ensures Kept(buf[..], old(buf[..]), at, end)
    ensures r == -1 || (0 <= r <= end - at && buf[at..at + r] == Body(schema, k, v))
    ensures at + NeedBody(schema, k, v) <= end ==> r >= 0
    decreases v, 0
  {
    if k.Text? {
      if |v.s| > end - at {
        return -1;
      }
      Put(buf, at, v.s);
      return |v.s|;
    }
    r := EncodeInto(buf, at, end, schema, schema[k.t], v.es);
  }

  /** `encode_object`. */
  method EncodeObject(buf: array<byte>, at: nat, end: nat, schema: Schema, k: Kind, v: Value) returns (r: int)
    requires at <= end <= buf.Length && ValidSchema(schema) && Typed(schema, k, v) && (k.Text? || k.Struct?)
    modifies buf
    ensures Kept(buf[..], old(buf[..]), at, end)
    ensures r == -1 || (0 < r <= end - at && buf[at..at + r] == Sized(Body(schema, k, v)))
    ensures at + 4 + NeedBody(schema, k, v) <= end ==> r >= 0
    decreases v, 1
  {
    hide Body, NeedBody, Typed, LittleEndian;
    if end - at < 4 {
      return -1;
    }
    var sz := EncodeBody(buf, at + 4, end, schema, k, v);
    if sz < 0 {
      return -1;
    }
    FillSize(buf, at, sz);
    r := sz + 4;
  }

  /** `fill_size`: the length in front of what has been written. */
  method FillSize(buf: array<byte>, at: nat, sz: nat)
    requires at + 4 + sz <= buf.Length
    modifies buf
    ensures buf[at..at + 4 + sz] == Sized(old(buf[at + 4..at + 4 + sz])) && Kept(buf[..], old(buf[..]), at, at + 4)
  {
    hide LittleEndian;
    Put(buf, at, LittleEndian(sz, 4));
    assert buf[at + 4..at + 4 + sz] == old(buf[at + 4..at + 4 + sz]);
    assert buf[at..at + 4 + sz] == buf[at..at + 4] + buf[at + 4..at + 4 + sz];
  }

  /** The first element and the others: what is written for them, and the room it takes. */
  lemma {:induction false} FirstBody(schema: Schema, k: Kind, vs: seq<Value>)
    requires ValidSchema(schema) && AllTyped(schema, k, vs) && (k.Text? || k.Struct?)
    ensures vs == [] ==> Bodies(schema, k, vs) == [] && NeedBodies(schema, k, vs) == 4
    ensures vs != [] ==>
              && Typed(schema, k, vs[0]) && AllTyped(schema, k, vs[1..])
              && Bodies(schema, k, vs) == Sized(Body(schema, k, vs[0])) + Bodies(schema, k, vs[1..])
              && NeedBodies(schema, k, vs) == 4 + NeedBody(schema, k, vs[0]) + NeedBodies(schema, k, vs[1..])
    ensures NeedBodies(schema, k, vs) >= 4
    decreases vs
  {
    hide Body, NeedBody, Sized, Typed;
    if |vs| > 0 {
      FirstBody(schema, k, vs[1..]);
    }
  }

  lemma {:induction false} BodyJoined(now: seq<byte>, mid: seq<byte>, at: nat, p: nat, r: nat, end: nat,
                                      others: seq<byte>)
    requires Kept(now, mid, p, end) && at <= p <= p + r <= end <= |now|
    ensures |mid| == |now| && mid[at..p] + (now[p..p + r] + others) == now[at..p + r] + others
  {
    KeptSlice(now, mid, p, end, at, p);
    Join(now, at, p, p + r);
    Regroup(now[at..p], now[p..p + r], others);
  }

  /** `encode_array_object`, which asks for room for one more length before it sees that there is no more element. */
  method EncodeBodies(buf: array<byte>, at: nat, end: nat, schema: Schema, k: Kind, vs: seq<Value>)
    returns (ok: bool, p: nat)
    requires at <= end <= buf.Length && ValidSchema(schema) && AllTyped(schema, k, vs) && (k.Text? || k.Struct?)
    modifies buf
    ensures Kept(buf[..], old(buf[..]), at, end)
    ensures ok ==> at <= p <= end && buf[at..p] == Bodies(schema, k, vs)
    ensures at + NeedBodies(schema, k, vs) <= end ==> ok
    decreases vs, 0
  {
    hide Body, NeedBody, Typed, AllTyped, Bodies, NeedBodies, LittleEndian, Kept, Sized;
    p := at;
    var j := 0;
    assert vs[0..] == vs;
    ghost var was := buf[..];
    NothingChanged(was, at, end);
    while true
      invariant j <= |vs| && at <= p <= end && AllTyped(schema, k, vs[j..]) && Kept(buf[..], was, at, end)
      invariant Bodies(schema, k, vs) == buf[at..p] + Bodies(schema, k, vs[j..])
      invariant at + NeedBodies(schema, k, vs) <= end ==> p + NeedBodies(schema, k, vs[j..]) <= end
      decreases |vs| - j
    {
      FirstBody(schema, k, vs[j..]);
      if end - p < 4 {
        return false, p;
      }
      if j == |vs| {
        assert buf[at..p] + [] == buf[at..p];
        return true, p;
      }
      assert vs[j..][0] == vs[j] && vs[j..][1..] == vs[j + 1..];
      ghost var mid, others := buf[..], Bodies(schema, k, vs[j + 1..]);
      var r := EncodeElement(buf, p, end, schema, k, vs[j]);
      KeptBoth(buf[..], mid, was, at, end, p, end, at, end);
      if r < 0 {
        return false, p;
      }
      BodyWithin(schema, k, vs[j]);
      SizedLength(Body(schema, k, vs[j]));
      BodyJoined(buf[..], mid, at, p, r, end, others);
      p, j := p + r, j + 1;
    }
  }

  /** One element of `encode_array_object`, once there is room for its length. */
  method EncodeElement(buf: array<byte>, p: nat, end: nat, schema: Schema, k: Kind, v: Value) returns (r: int)
    requires p + 4 <= end <= buf.Length && ValidSchema(schema) && Typed(schema, k, v) && (k.Text? || k.Struct?)
    modifies buf
    ensures Kept(buf[..], old(buf[..]), p, end)
    ensures r == -1 || (0 < r <= end - p && buf[p..p + r] == Sized(Body(schema, k, v)))
    ensures p + 4 + NeedBody(schema, k, v) <= end ==> r >= 0
    decreases v, 1
  {
    hide Body, NeedBody, Typed, LittleEndian;
    var sz := EncodeBody(buf, p + 4, end, schema, k, v);
    if sz < 0 {
      return -1;
    }
    FillSize(buf, p, sz);
    r := sz + 4;
  }

  /** `encode_array`. */
  method EncodeArray(buf: array<byte>, at: nat, end: nat, schema: Schema, k: Kind, vs: seq<Value>) returns (r: int)
    requires at <= end <= buf.Length && ValidSchema(schema) && AllTyped(schema, k, vs)
    modifies buf
    ensures Kept(buf[..], old(buf[..]), at, end)
    ensures r == -1 || (0 < r <= end - at && buf[at..at + r] == Sized(Elements(schema, k, vs)))
    ensures at + 4 + NeedElements(schema, k, vs) <= end ==> r >= 0
    decreases vs, 1
  {
    hide Bodies, NeedBodies, Flags, AllTyped, LittleEndian, Numbers;
    if end - at < 4 {
      return -1;
    }
    var ok, p;
    match k {
      case Integer => ok, p := EncodeNumbers(buf, at + 4, end, schema, k, vs);
      case Double => ok, p := EncodeNumbers(buf, at + 4, end, schema, k, vs);
      case Boolean => ok, p := EncodeFlags(buf, at + 4, end, schema, vs);
      case Text => ok, p := EncodeBodies(buf, at + 4, end, schema, k, vs);
      case Struct(_) => ok, p := EncodeBodies(buf, at + 4, end, schema, k, vs);
    }
    if !ok {
      return -1;
    }
    FillSize(buf, at, p - (at + 4));
    r := p - at;
  }

  /** What a field is encoded to: its data, of size `sz`, or a value for its word. */
  method EncodeValue(buf: array<byte>, at: nat, end: nat, schema: Schema, f: Field, v: Value)
    returns (sz: int, value: nat)
    requires at <= end <= buf.Length && ValidSchema(schema)
    requires if f.isArray then v.List? && AllTyped(schema, f.kind, v.vs) else Typed(schema, f.kind, v)
    modifies buf
    ensures Kept(buf[..], old(buf[..]), at, end)
    ensures sz == -1 || (sz > 0 && match Code(schema, f, v)
                                   case Inline(w) => value == w
                                   case Data(b) => value == 0 && sz == |b| <= end - at && buf[at..at + sz] == b)
    ensures at + NeedCode(schema, f, v) <= end ==> sz >= 0
    decreases v, 2
  {
    hide Elements, NeedElements, Body, NeedBody, LittleEndian;
    value := 0;
    if f.isArray {
      sz := EncodeArray(buf, at, end, schema, f.kind, v.vs);
      return;
    }
    match f.kind {
      case Integer =>
        if Fits32(v.n) {
          if Low32(v.n) < SMALL {
            assert 0 <= v.n < SMALL;
            value, sz := (Low32(v.n) + 1) * 2, 2;
          } else {
            sz := EncodeFixed(buf, at, end, Low32(v.n), 4);
          }
        } else {
          sz := EncodeFixed(buf, at, end, Low64(v.n), 8);
        }
      case Boolean =>
        value, sz := if v.b then 4 else 2, 2;
      case Double =>
        sz := EncodeFixed(buf, at, end, v.bits, 8);
      case Text =>
        sz := EncodeObject(buf, at, end, schema, f.kind, v);
      case Struct(_) =>
        sz := EncodeObject(buf, at, end, schema, f.kind, v);
    }
  }

  /** `encode_integer` and `encode_uint64`. */
  method EncodeFixed(buf: array<byte>, at: nat, end: nat, n: nat, k: nat) returns (r: int)
    requires at <= end <= buf.Length
    modifies buf
    ensures Kept(buf[..], old(buf[..]), at, end)
    ensures r == if end - at < 4 + k then -1 else 4 + k
    ensures r >= 0 ==> buf[at..at + r] == Sized(LittleEndian(n, k))
  {
    hide LittleEndian;
    if end - at < 4 + k {
      return -1;
    }
    Put(buf, at + 4, LittleEndian(n, k));
    FillSize(buf, at, k);
    r := 4 + k;
  }

  // ----- records -----

  /** The loop of `sproto_encode` after `j` fields that are not nil: `index` words of the header, and the data up to
      `data`. */
  ghost predicate Progress(buf: array<byte>, at: nat, body: nat, schema: Schema, t: seq<Field>, es: seq<Entry>, j: nat,
                           index: nat,
                           data: nat, last: int)
    requires TypedEntries(schema, t, es)
    reads buf
  {
    && j <= |es| && TypedEntries(schema, t, es[j..]) && (j < |es| ==> last < es[j].tag)
    && at + 2 + 2 * index <= body <= data <= buf.Length
    && Words(schema, t, es, -1) == buf[at + 2..at + 2 + 2 * index] + Words(schema, t, es[j..], last)
    && Datas(schema, t, es) == buf[body..data] + Datas(schema, t, es[j..])
  }

  /** The words of one field: one for the tags skipped before it, if any, and its own. */
  method PutWords(buf: array<byte>, at: nat, index: nat, tag: nat, last: int, value: nat)
    returns (ok: bool, index': nat)
    requires -1 <= last < tag < TAGS && value < 0x1_0000
    requires at + 2 + 2 * index + |Gap(last, tag)| + 2 <= buf.Length
    modifies buf
    ensures ok && 2 * index' == 2 * index + |Gap(last, tag)| + 2
    ensures buf[at + 2 + 2 * index..at + 2 + 2 * index'] == Gap(last, tag) + WordBytes(value)
    ensures Kept(buf[..], old(buf[..]), at + 2 + 2 * index, at + 2 + 2 * index')
  {
    hide WordBytes, Kept;
    ghost var s0 := buf[..];
    index' := index;
    NothingChanged(s0, at + 2 + 2 * index, at + 2 + 2 * index);
    var record, gap := at + 2 + 2 * index, tag - last - 1;
    if gap > 0 {
      gap := (gap - 1) * 2 + 1;
      if gap > 0xFFFF {
        return false, index;
      }
      Put(buf, record, WordBytes(gap));
      index', record := index' + 1, record + 2;
    }
    index' := index' + 1;
    ghost var s1, from, to := buf[..], at + 2 + 2 * index, at + 2 + 2 * index';
    Put(buf, record, WordBytes(value));
    KeptSlice(buf[..], s1, to - 2, to, from, to - 2);
    KeptBoth(buf[..], s1, s0, from, to - 2, to - 2, to, from, to);
    Join(buf[..], from, to - 2, to);
    ok := true;
  }

  /** The data of one field, or the value its word is to hold. */
  method EncodeData(buf: array<byte>, data: nat, end: nat, schema: Schema, t: seq<Field>, e: Entry, f: Field)
    returns (ok: bool, data': nat, value: nat)
    requires ValidSchema(schema) && TypedEntry(schema, t, e) && Lookup(t, e.tag) == Some(f) && data <= end <= buf.Length
    modifies buf
    ensures Kept(buf[..], old(buf[..]), data, end) && (ok ==> data <= data' <= end)
    ensures var c := CodeOf(schema, t, e);
            ok ==> value == (if c.Inline? then c.word else 0) && buf[data..data'] == (if c.Data? then c.bytes else [])
    ensures data + NeedEntry(schema, t, e) <= end ==> ok && data' <= data + NeedEntry(schema, t, e)
    decreases e, 0
  {
    hide Code, NeedCode, LittleEndian;
    EntryWithin(schema, t, e);
    var sz;
    sz, value := EncodeValue(buf, data, end, schema, f, e.value);
    ok := sz >= 0;
    data' := if value == 0 && ok then data + sz else data;
  }

  /** One field that is not nil. */
  method EncodeEntry(buf: array<byte>, at: nat, body: nat, end: nat, schema: Schema, t: seq<Field>, es: seq<Entry>,
                     j: nat,
                     f: Field, index: nat, data: nat, last: int)
    returns (ok: bool, index': nat, data': nat)
    requires ValidSchema(schema) && t in schema && TypedEntries(schema, t, es) && data <= end <= buf.Length &&
             -1 <= last
    requires Progress(buf, at, body, schema, t, es, j, index, data, last) && j < |es| && Lookup(t, es[j].tag) == Some(f)
    requires body == at + 2 + 2 * MaxN(t, -1)
    modifies buf
    ensures Kept(buf[..], old(buf[..]), at, end)
    ensures ok ==> data' <= end && Progress(buf, at, body, schema, t, es, j + 1, index', data', f.tag)
    ensures TypedEntries(schema, t, es[j + 1..])
    ensures data + NeedEntries(schema, t, es[j..]) <= end ==> ok && data' + NeedEntries(schema, t, es[j + 1..]) <= end
    decreases es[j], 1
  {
    hide Words, Datas, NeedEntry, CodeOf, WordBytes, MaxN, Gap, Kept, Lookup, TypedEntry;
    ghost var e, others := es[j], es[j + 1..];
    assert es[j..][0] == e && es[j..][1..] == others;
    FirstOf(schema, t, es[j..], last);
    TagBound(schema, t, e);
    WordsFit(schema, t, es);
    NeedFirst(schema, t, es[j..]);
    ghost var s0, c := buf[..], CodeOf(schema, t, e);
    var value;
    index' := index;
    ok, data', value := EncodeData(buf, data, end, schema, t, es[j], f);
    ghost var s1 := buf[..];
    if !ok {
      KeptBoth(s1, s1, s0, data, end, at, at, at, end);
      return;
    }
    ok, index' := PutWords(buf, at, index, f.tag, last, value);
    ghost var from, to := at + 2 + 2 * index, at + 2 + 2 * index';
    EntryAdded(s0, s1, buf[..], at + 2, from, to, body, data, data', end, if c.Data? then c.bytes else [],
               Gap(last, f.tag) + WordBytes(value), Words(schema, t, others, f.tag), Datas(schema, t, others));
    KeptBoth(buf[..], s1, s0, data, end, from, to, at, end);
  }

  /** What one field adds to the words and to the data. */
  lemma {:induction false} EntryAdded(s0: seq<byte>, s1: seq<byte>, s2: seq<byte>, head: nat, from: nat, to: nat,
                                      body: nat,
                                      data: nat, data': nat, end: nat, d: seq<byte>, w: seq<byte>, words: seq<byte>,
                                        datas: seq<byte>)
    requires |s0| == |s1| == |s2| && head <= from <= to <= body <= data <= data' <= end <= |s0| &&
             Kept(s1, s0, data, end) && Kept(s2, s1, from, to)
    requires s1[data..data'] == d && s2[from..to] == w
    ensures s0[head..from] + (w + words) == s2[head..to] + words
    ensures s0[body..data] + (d + datas) == s2[body..data'] + datas
  {
    hide Kept;
    KeptSlice(s1, s0, data, end, head, from);
    KeptSlice(s2, s1, from, to, head, from);
    KeptSlice(s1, s0, data, end, body, data);
    KeptSlice(s2, s1, from, to, body, data');
    assert s2[body..data'] == s1[body..data'];
    Join(s2, head, from, to);
    Join(s1, body, data, data');
    Regroup(s0[head..from], w, words);
    Regroup(s0[body..data], d, datas);
  }

  lemma {:induction false} Join(s: seq<byte>, i: nat, j: nat, k: nat)
    requires i <= j <= k <= |s|
    ensures s[i..k] == s[i..j] + s[j..k]
  {
  }

  lemma {:induction false} NeedFirst(schema: Schema, t: seq<Field>, es: seq<Entry>)
    requires TypedEntries(schema, t, es) && es != []
    ensures NeedEntries(schema, t, es) == NeedEntry(schema, t, es[0]) + NeedEntries(schema, t, es[1..])
  {
  }

  lemma {:induction false} ProgressStarts(buf: array<byte>, at: nat, schema: Schema, t: seq<Field>, es: seq<Entry>)
    requires TypedEntries(schema, t, es) && at + 2 + 2 * MaxN(t, -1) <= buf.Length
    ensures var body := at + 2 + 2 * MaxN(t, -1); Progress(buf, at, body, schema, t, es, 0, 0, body, -1)
    ensures es[0..] == es
  {
    hide Words, Datas, MaxN, TypedEntries;
    assert es[0..] == es;
    var body := at + 2 + 2 * MaxN(t, -1);
    NothingInFront(buf[at + 2..at + 2], Words(schema, t, es, -1));
    NothingInFront(buf[body..body], Datas(schema, t, es));
  }

  lemma {:induction false} NothingInFront(s: seq<byte>, u: seq<byte>)
    requires |s| == 0
    ensures s + u == u
  {
  }

  lemma {:induction false} FieldAt(t: seq<Field>, i: nat)
    requires i < |t| && forall a, b :: 0 <= a < b < |t| ==> t[a].tag < t[b].tag
    ensures Lookup(t, t[i].tag) == Some(t[i])
    decreases t
  {
    if i > 0 {
      FieldAt(t[1..], i - 1);
    }
  }

  /** A tag of the record that is beyond field `i - 1` is not before field `i`, so it is that of field `i` or comes
      later. */
  lemma {:induction false} NextField(schema: Schema, t: seq<Field>, es: seq<Entry>, i: nat, j: nat)
    requires ValidSchema(schema) && t in schema && TypedEntries(schema, t, es) && i <= |t| && j <= |es|
    requires j < |es| && i > 0 ==> t[i - 1].tag < es[j].tag
    ensures j < |es| ==> i < |t| && t[i].tag <= es[j].tag
  {
    if j < |es| {
      EntryTyped(schema, t, es, es[j]);
      var f := Lookup(t, es[j].tag).value;
      assert ValidType(schema, t);
      var m :| 0 <= m < |t| && t[m] == f;
      assert i > 0 ==> t[i - 1].tag < t[m].tag;
      assert i == 0 || m >= i;
    }
  }

  /** The header gets its count, and the data moves down to it. */
  method Finish(buf: array<byte>, at: nat, body: nat, ghost schema: Schema, ghost t: seq<Field>, ghost es: seq<Entry>,
                index: nat,
                data: nat, ghost last: int)
    requires TypedEntries(schema, t, es) && Progress(buf, at, body, schema, t, es, |es|, index, data, last)
    modifies buf
    ensures Kept(buf[..], old(buf[..]), at, data)
    ensures var r := 2 + 2 * index + (data - body);
            body <= data && at + r <= data && buf[at..at + r] == EncodeRecord(schema, t, es)
  {
    hide WordBytes, Kept, EncodeRecord;
    var to := at + 2 + 2 * index;
    ghost var s0 := buf[..];
    AllWritten(s0, at, body, schema, t, es, index, data, last);
    hide Progress;
    Put(buf, at, WordBytes(index));
    ghost var s1 := buf[..];
    MoveDown(buf, to, body, data);
    Brought(s0, s1, buf[..], at, to, body, data, WordBytes(index));
    assert at + (2 + 2 * index + (data - body)) == to + (data - body);
    assert buf[at..to + (data - body)] == buf[..][at..to + (data - body)];
  }

  /** When no field is left, header and data hold the record. */
  lemma {:induction false} AllWritten(s: seq<byte>, at: nat, body: nat, schema: Schema, t: seq<Field>, es: seq<Entry>,
                                      index: nat, data: nat, last: int)
    requires TypedEntries(schema, t, es) && TypedEntries(schema, t, es[|es|..])
    requires at + 2 + 2 * index <= body <= data <= |s|
    requires Words(schema, t, es, -1) == s[at + 2..at + 2 + 2 * index] + Words(schema, t, es[|es|..], last)
    requires Datas(schema, t, es) == s[body..data] + Datas(schema, t, es[|es|..])
    ensures EncodeRecord(schema, t, es) == WordBytes(index) + s[at + 2..at + 2 + 2 * index] + s[body..data]
  {
    hide WordBytes, Words, Datas;
    var words, datas := s[at + 2..at + 2 + 2 * index], s[body..data];
    assert es[|es|..] == [];
    NothingLeft(schema, t, last);
    assert words + [] == words && datas + [] == datas;
  }

  /** The count is written to the header, and the data is moved down behind the words. */
  lemma {:induction false} Brought(s0: seq<byte>, s1: seq<byte>, s2: seq<byte>, at: nat, to: nat, body: nat, data: nat,
                                   count: seq<byte>)
    requires |count| == 2 && at + 2 <= to <= body <= data <= |s0| == |s1| == |s2|
    requires Kept(s1, s0, at, at + 2) && s1[at..at + 2] == count
    requires Kept(s2, s1, to, data) && s2[to..to + (data - body)] == s1[body..data]
    ensures Kept(s2, s0, at, data)
    ensures s2[at..to + (data - body)] == count + s0[at + 2..to] + s0[body..data]
  {
    hide Kept;
    KeptSlice(s1, s0, at, at + 2, at + 2, to);
    KeptSlice(s1, s0, at, at + 2, body, data);
    KeptSlice(s2, s1, to, data, at, at + 2);
    KeptSlice(s2, s1, to, data, at + 2, to);
    KeptBoth(s2, s1, s0, at, at + 2, to, data, at, data);
    Join(s2, at, at + 2, to);
    Join(s2, at, to, to + (data - body));
  }

  lemma {:induction false} NothingLeft(schema: Schema, t: seq<Field>, last: int)
    ensures TypedEntries(schema, t, []) && Words(schema, t, [], last) == [] && Datas(schema, t, []) == []
  {
  }

  /** `memmove` of the data down to the header, unless it is there already. */
  method MoveDown(buf: array<byte>, to: nat, from: nat, end: nat)
    requires to <= from <= end <= buf.Length
    modifies buf
    ensures buf[to..to + (end - from)] == old(buf[from..end]) && Kept(buf[..], old(buf[..]), to, end)
  {
    if to != from {
      forall l | 0 <= l < end - from {
        buf[to + l] := buf[from + l];
      }
    }
  }

  /** `sproto_encode`: the header is written beside the data, which moves down to it in the end. */
  method EncodeInto(buf: array<byte>, at: nat, end: nat, schema: Schema, t: seq<Field>, es: seq<Entry>) returns (r: int)
    requires at <= end <= buf.Length && ValidSchema(schema) && t in schema && TypedEntries(schema, t, es)
    modifies buf
    ensures Kept(buf[..], old(buf[..]), at, end)
    ensures r == -1 || (0 <= r <= end - at && buf[at..at + r] == EncodeRecord(schema, t, es))
    ensures at + NeedRecord(schema, t, es) <= end ==> r >= 0
    decreases es, 1
  {
    hide Words, Datas, NeedEntries, LittleEndian, CodeOf, Kept, Progress, Lookup, MaxN;
    var body := at + 2 + 2 * MaxN(t, -1);
    ghost var was := buf[..];
    NothingChanged(was, at, end);
    if end < body {
      return -1;
    }
    var data: nat, index: nat, last: int, i: nat, j: nat := body, 0, -1, 0, 0;
    ProgressStarts(buf, at, schema, t, es);
    while i < |t|
      invariant i <= |t| && data <= end && -1 <= last && Progress(buf, at, body, schema, t, es, j, index, data, last)
      invariant j <= |es| && TypedEntries(schema, t, es[j..]) && Kept(buf[..], was, at, end)
      invariant j < |es| && i > 0 ==> t[i - 1].tag < es[j].tag
      invariant at + NeedRecord(schema, t, es) <= end ==> data + NeedEntries(schema, t, es[j..]) <= end
    {
      var f := t[i];
      if j < |es| && es[j].tag == f.tag {
        FieldAt(t, i);
        var ok;
        ghost var mid := buf[..];
        ok, index, data := EncodeEntry(buf, at, body, end, schema, t, es, j, f, index, data, last);
        KeptBoth(buf[..], mid, was, at, end, at, end, at, end);
        if !ok {
          return -1;
        }
        last, j := f.tag, j + 1;
        Ascends(schema, t, es);
      } else {
        NextField(schema, t, es, i, j);
      }
      i := i + 1;
    }
    NextField(schema, t, es, i, j);
    ghost var mid := buf[..];
    Finish(buf, at, body, schema, t, es, index, data, last);
    KeptBoth(buf[..], mid, was, at, end, at, data, at, end);
    r := 2 + 2 * index + (data - body);
  }
}
