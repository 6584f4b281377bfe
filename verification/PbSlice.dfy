/** The varint readers of a slice: a loop over at most ten bytes, and unrolled forms that skip the bounds checks. */
module PbSlice {
  import opened Basics
  import opened PbVarint

  /** A reading position in some bytes. */
  class Slice {
    const data: seq<byte>
    const end: nat
    var p: nat

    ghost predicate Valid()
      reads this
    {
      p <= end <= |data|
    }

    /** The bytes still to be read. */
    ghost function Rest(): seq<byte>
      reads this
      requires Valid()
    {
      data[p..end]
    }

    constructor (data: seq<byte>, start: nat, end: nat)
      requires start <= end <= |data|
      ensures Valid() && this.data == data && this.end == end && p == start
    {
      this.data, this.end, p := data, end, start;
    }

    function Len(): nat
      reads this
      requires Valid()
    {
      end - p
    }

    ghost predicate FastSafe()
      reads this
      requires Valid()
    {
      Len() >= 1 && data[p] >= 128 && (Len() >= 10 || data[end - 1] < 128)
    }

    method ReadVarintSlow() returns (ret: nat, v: u64)
      requires Valid()
      modifies this
      ensures Valid()
      ensures match Varint(old(Rest()), 10)
              case Bad => ret == 0 && p == old(p)
              case Good(value, used) => ret == used && p == old(p) + used && v == Low64(value)
    {
      hide Reading, Varint, Scaled, After, Low32, Low64;
      var start, n: nat, i: nat := p, 0, 0;
      ghost var w, low: nat := Rest(), 0;
      ReadingStarts(w);
      LowSmall(0);
      while p < end && i < 10
        invariant start <= p == start + i <= end && i <= 10
        invariant n == Low64(low) && Reading(w, low, i)
      {
        var b := data[p];
        p := p + 1;
        ModAdd(low, Scaled(Low7(b), i));
        n := Low64(n + Scaled(Low7(b), i));
        if b < 128 {
          ReadingEnds(w, low, i);
          return i + 1, n;
        }
        ReadingOn(w, low, i);
        low := low + Scaled(b - 128, i);
        i := i + 1;
      }
      ReadingFails(w, low, i);
      p := start;
      return 0, 0;
    }

    /** Without a test against the end, the next byte is there. */
    lemma {:induction false} InBounds(q: nat)
      requires Valid() && FastSafe() && p <= q <= end && q < p + 10 && (q > p ==> data[q - 1] >= 128)
      ensures q < end && |Rest()| == end - p && Rest()[q - p] == data[q]
    {
    }

    /** Four bytes of the unrolled readers, from byte `j` on, collected in a word: each top bit is added with its byte
        and taken off again once it is known to be set. */
    method FourBytes(start: nat, ghost w: seq<byte>, ghost low: nat, ghost j: nat)
      returns (q: nat, n: nat, more: bool)
      requires Valid() && w == Rest() && start == p + j && j <= 6 && Reading(w, low, j) && FastSafe()
      requires start <= end && (j > 0 ==> data[start - 1] >= 128)
      ensures start < q <= start + 4 && q <= end && n < 0x1000_0000
      ensures more ==> q == start + 4 && data[q - 1] >= 128 && Collected(w, low, j, n, 4)
      ensures !more ==> Complete(w, low, j, n, q - p)
    {
      hide Collected, Complete, Reading, Varint, Scaled, After, FastSafe, Rest;
      q, more := start, true;
      PartStarts(w, low, j);
      InBounds(q);
      var b: int := data[q];
      PartOn(w, low, j, 0, 0);
      assert Scaled(Low7(b), 0) == Low7(b) by { Shifts(Low7(b)); }
      n := b; q := q + 1;
      if b < 128 { more := false; return; }
      n := n - 0x80;
      assert n < 0x80;
      InBounds(q);
      PartOn(w, low, j, n, 1);
      b := data[q];
      assert Scaled(Low7(b), 1) == 0x80 * Low7(b) by { Shifts(Low7(b)); }
      n := n + b * 0x80; q := q + 1;
      if b < 128 { more := false; return; }
      n := n - 0x80 * 0x80;
      assert n < 0x4000;
      q, n, more := LastTwo(q, n, w, low, j);
    }

    /** The last two of the four bytes. */
    method LastTwo(from: nat, part: nat, ghost w: seq<byte>, ghost low: nat, ghost j: nat)
      returns (q: nat, n: nat, more: bool)
      requires Valid() && w == Rest() && from == p + j + 2 && j <= 6 && Collected(w, low, j, part, 2) && FastSafe()
      requires from <= end && data[from - 1] >= 128 && part < 0x4000
      ensures from < q <= from + 2 && q <= end && n < 0x1000_0000
      ensures more ==> q == from + 2 && data[q - 1] >= 128 && Collected(w, low, j, n, 4)
      ensures !more ==> Complete(w, low, j, n, q - p)
    {
      hide Collected, Complete, Reading, Varint, Scaled, After, FastSafe, Rest;
      var b: int;
      q, n, more := from, part, true;
      InBounds(q);
      PartOn(w, low, j, n, 2);
      b := data[q];
      assert Scaled(Low7(b), 2) == 0x4000 * Low7(b) by { Shifts(Low7(b)); }
      n := n + b * 0x4000; q := q + 1;
      if b < 128 { more := false; return; }
      n := n - 0x80 * 0x4000;
      InBounds(q);
      PartOn(w, low, j, n, 3);
      b := data[q];
      assert Scaled(Low7(b), 3) == 0x20_0000 * Low7(b) by { Shifts(Low7(b)); }
      n := n + b * 0x20_0000; q := q + 1;
      if b < 128 { more := false; return; }
      n := n - 0x80 * 0x20_0000;
    }

    /** The bytes after the fifth: only their top bits matter to a 32-bit number. */
    method FiveTopBits(start: nat, ghost w: seq<byte>, ghost low: nat) returns (q: nat, done: bool, ghost high: nat)
      requires Valid() && w == Rest() && start == p + 5 <= end && Reading(w, low, 5) && FastSafe() &&
               data[start - 1] >= 128
      ensures p <= q <= end && Low32(high) == Low32(low)
      ensures Varint(w, 10) == if done then Good(high, q - p) else Bad
    {
      hide Reading, Varint, Scaled, After, Low32, FastSafe, Rest;
      q, high, done := start, low, true;
      var b: int;
      InBounds(q);
      b := data[q];
      HighBytes(high, 5, Low7(b));
      q := q + 1;
      if b < 128 { ReadingEnds(w, high, 5); high := high + Scaled(b, 5); return; }
      ReadingOn(w, high, 5);
      high := high + Scaled(b - 128, 5);
      InBounds(q);
      b := data[q];
      HighBytes(high, 6, Low7(b));
      q := q + 1;
      if b < 128 { ReadingEnds(w, high, 6); high := high + Scaled(b, 6); return; }
      ReadingOn(w, high, 6);
      high := high + Scaled(b - 128, 6);
      InBounds(q);
      b := data[q];
      HighBytes(high, 7, Low7(b));
      q := q + 1;
      if b < 128 { ReadingEnds(w, high, 7); high := high + Scaled(b, 7); return; }
      ReadingOn(w, high, 7);
      high := high + Scaled(b - 128, 7);
      InBounds(q);
      b := data[q];
      HighBytes(high, 8, Low7(b));
      q := q + 1;
      if b < 128 { ReadingEnds(w, high, 8); high := high + Scaled(b, 8); return; }
      ReadingOn(w, high, 8);
      high := high + Scaled(b - 128, 8);
      InBounds(q);
      b := data[q];
      HighBytes(high, 9, Low7(b));
      q := q + 1;
      if b < 128 { ReadingEnds(w, high, 9); high := high + Scaled(b, 9); return; }
      ReadingOn(w, high, 9);
      high := high + Scaled(b - 128, 9);
      ReadingFails(w, high, 10);
      done := false;
    }

    /** `pb_readvarint32_fallback`: arithmetic modulo 2^32, and no test against the end of the slice. */
    method Fallback32() returns (ret: nat, v: u32)
      requires Valid() && FastSafe()
      modifies this
      ensures Valid()
      ensures match Varint(old(Rest()), 10)
              case Bad => ret == 0 && p == old(p)
              case Good(value, used) => ret == used && p == old(p) + used && v == Low32(value)
    {
      hide Reading, Varint, Scaled, After, Low32, Low64, FastSafe;
      ghost var w := Rest();
      ReadingStarts(w);
      InBounds(p);
      var q, n, more := FourBytes(p, w, 0, 0);
      Shifts(n);
      if more {
        InBounds(q);
        var b: int := data[q];
        ghost var low := n + Scaled(Low7(b), 4);
        WordShifts(Low7(b));
        n, q := Low32(n + b * 0x1000_0000), q + 1;
        if b < 128 {
          ReadingEnds(w, low - Scaled(b, 4), 4);
        } else {
          ReadingOn(w, low - Scaled(b - 128, 4), 4);
          Multiple(low, 8);
          var done;
          ghost var high;
          q, done, high := FiveTopBits(q, w, low);
          if !done {
            return 0, 0;
          }
        }
      } else {
        LowSmall(n);
      }
      ret, v, p := q - p, n, q;
    }

    /** `pb_readvarint64_fallback`: the number is kept in three words of 28, 28 and 8 bits. */
    method Fallback64() returns (ret: nat, v: u64)
      requires Valid() && FastSafe()
      modifies this
      ensures Valid()
      ensures match Varint(old(Rest()), 10)
              case Bad => ret == 0 && p == old(p)
              case Good(value, used) => ret == used && p == old(p) + used && v == Low64(value)
    {
      hide Reading, Varint, Scaled, After, Low32, Low64, FastSafe;
      ghost var w := Rest();
      ReadingStarts(w);
      var n2: u32, n3: u32, more2 := 0, 0, true;
      var q, n1, more := FourBytes(p, w, 0, 0);
      Shifts(n1);
      if more {
        q, n2, more2 := FourBytes(q, w, n1, 4);
        WordShifts(n2);
        if more2 {
          ghost var low := n1 + Scaled(n2, 4);
          InBounds(q);
          var b: int := data[q];
          WordShifts(Low7(b));
          n3, q := b, q + 1;
          if b < 128 {
            ReadingEnds(w, low, 8);
          } else {
            ReadingOn(w, low, 8);
            low := low + Scaled(b - 128, 8);
            InBounds(q);
            b := data[q];
            ScaledNext(Low7(b), 8);
            WordShifts(128 * (Low7(b)));
            n3, q := n3 - 0x80 + b * 0x80, q + 1;
            if b < 128 {
              ReadingEnds(w, low, 9);
            } else {
              ReadingOn(w, low, 9);
              ReadingFails(w, low + Scaled(b - 128, 9), 10);
              return 0, 0;
            }
          }
        }
      }
      v := Low64(n1 + n2 * 0x1000_0000 + n3 * 0x100_0000_0000_0000);
      ret, p := q - p, q;
    }

    /** `pb_readvarint32`, on any slice: one byte at once, the unrolled form where it cannot run past the end, else the
        loop. */
    method ReadVarint32() returns (ret: nat, v: u32)
      requires Valid()
      modifies this
      ensures Valid()
      ensures match Varint(old(Rest()), 10)
              case Bad => ret == 0 && p == old(p)
              case Good(value, used) => ret == used && p == old(p) + used && v == Low32(value)
    {
      if p >= end {
        return 0, 0;
      }
      assert Rest()[0] == data[p];
      if data[p] < 128 {
        v := data[p];
        LowSmall(v);
        p := p + 1;
        return 1, v;
      }
      if Len() >= 10 || data[end - 1] < 128 {
        ret, v := Fallback32();
        return;
      }
      var u64;
      ret, u64 := ReadVarintSlow();
      v := Low32(u64);
      if ret != 0 {
        LowTwice(Varint(old(Rest()), 10).value);
      }
    }

    /** `pb_readvarint64`, likewise. */
    method ReadVarint64() returns (ret: nat, v: u64)
      requires Valid()
      modifies this
      ensures Valid()
      ensures match Varint(old(Rest()), 10)
              case Bad => ret == 0 && p == old(p)
              case Good(value, used) => ret == used && p == old(p) + used && v == Low64(value)
    {
      if p >= end {
        return 0, 0;
      }
      assert Rest()[0] == data[p];
      if data[p] < 128 {
        v := data[p];
        LowSmall(v);
        p := p + 1;
        return 1, v;
      }
      if Len() >= 10 || data[end - 1] < 128 {
        ret, v := Fallback64();
      } else {
        ret, v := ReadVarintSlow();
      }
    }
  }
}
