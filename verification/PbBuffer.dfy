/** The growing buffer the encoder writes to: varints written by unrolled code, and lengths put in front after the
    fact. */
module PbBuffer {
  import opened Basics
  import opened PbVarint
  import opened PbSlice
  import opened PbMessageSpec

  /** `sizeof(pb_HeapBuffer)` on a 64-bit machine. */
  const SSO_SIZE: nat := 16

  /** Up to this size, growing by half never stops short. */
  const LIMIT: int := MAX_SIZE / 2

  /** At `at`, `c` bytes of `all` have been written over `orig`, and `rest` is still to be written. */
  ghost predicate Writing(s: seq<byte>, orig: seq<byte>, at: nat, c: nat, all: nat, rest: nat) {
    && |s| == |orig| && at + c <= |s| && s[..at] == orig[..at] && s[at + c..] == orig[at + c..]
    && Digits(all) == s[at..at + c] + Digits(rest)
  }

  /** One step of the unrolled writers: the low seven bits go out with their top bit set if there are more. */
  method Group(buff: array<byte>, ghost orig: seq<byte>, at: nat, c: nat, ghost all: nat, n: nat)
    returns (c': nat, rest: nat, more: bool)
    requires at + c < buff.Length && Writing(buff[..], orig, at, c, all, n)
    modifies buff
    ensures more == (n >= 128) && (if more then rest == n / 128 && c' == c + 1 else rest == n && c' == c)
    ensures Writing(buff[..], orig, at, c', all, rest)
  {
    var p: byte := n % 128;
    more := n / 128 != 0;
    c', rest := c, n;
    if more {
      ghost var before := buff[at..at + c];
      assert buff[at + c + 1..] == buff[at + c..][1..];
      buff[at + c] := p + 128;
      c', rest := c + 1, n / 128;
      assert buff[at..at + c'] == before + [128 + n % 128];
      Regroup(before, [128 + n % 128], Digits(rest));
    }
  }

  /** The last byte, whose top bit is clear. */
  method LastGroup(buff: array<byte>, ghost orig: seq<byte>, at: nat, c: nat, ghost all: nat, n: byte) returns (c': nat)
    requires at + c < buff.Length && Writing(buff[..], orig, at, c, all, n) && n < 128
    modifies buff
    ensures c' == |Digits(all)| && at + c' <= buff.Length && buff[..at + c'] == orig[..at] + Digits(all)
    ensures buff[at + c'..] == orig[at + c'..]
  {
    ghost var before := buff[at..at + c];
    assert buff[at + c + 1..] == buff[at + c..][1..];
    buff[at + c] := n;
    c' := c + 1;
    assert buff[at..at + c'] == before + [n];
    assert buff[..at + c'] == buff[..at] + buff[at..at + c'];
  }

  lemma {:induction false} WritingStarts(s: seq<byte>, at: nat, all: nat)
    requires at <= |s|
    ensures Writing(s, s, at, 0, all, all)
  {
    assert s[at..at] + Digits(all) == Digits(all);
  }

  /** `pb_write32`. */
  method Write32(buff: array<byte>, at: nat, n: u32) returns (c: nat)
    requires at + 5 <= buff.Length
    modifies buff
    ensures c == |Digits(n)| <= 5 && at + c <= buff.Length
    ensures buff[..at + c] == old(buff[..at]) + Digits(n) && buff[at + c..] == old(buff[at + c..])
  {
    hide Digits, Writing;
    DigitCounts(n);
    ghost var orig := buff[..];
    WritingStarts(orig, at, n);
    var rest: nat, more := n, true;
    c := 0;
    c, rest, more := Group(buff, orig, at, c, n, rest);
    if more { c, rest, more := Group(buff, orig, at, c, n, rest); }
    if more { c, rest, more := Group(buff, orig, at, c, n, rest); }
    if more { c, rest, more := Group(buff, orig, at, c, n, rest); }
    c := LastGroup(buff, orig, at, c, n, rest);
    assert orig[..at] == old(buff[..at]) && orig[at + c..] == old(buff[at + c..]);
  }

  /** `pb_write64`. */
  method Write64(buff: array<byte>, at: nat, n: u64) returns (c: nat)
    requires at + 10 <= buff.Length
    modifies buff
    ensures c == |Digits(n)| <= 10 && at + c <= buff.Length
    ensures buff[..at + c] == old(buff[..at]) + Digits(n) && buff[at + c..] == old(buff[at + c..])
  {
    hide Digits, Writing;
    DigitCounts(n);
    ghost var orig := buff[..];
    WritingStarts(orig, at, n);
    var rest: nat, more := n, true;
    c := 0;
    c, rest, more := Group(buff, orig, at, c, n, rest);
    if more { c, rest, more := Group(buff, orig, at, c, n, rest); }
    if more { c, rest, more := Group(buff, orig, at, c, n, rest); }
    if more { c, rest, more := Group(buff, orig, at, c, n, rest); }
    if more { c, rest, more := Group(buff, orig, at, c, n, rest); }
    if more { c, rest, more := Group(buff, orig, at, c, n, rest); }
    if more { c, rest, more := Group(buff, orig, at, c, n, rest); }
    if more { c, rest, more := Group(buff, orig, at, c, n, rest); }
    if more { c, rest, more := Group(buff, orig, at, c, n, rest); }
    c := LastGroup(buff, orig, at, c, n, rest);
    assert orig[..at] == old(buff[..at]) && orig[at + c..] == old(buff[at + c..]);
  }

  /** `memmove` of the bytes from `from` to `to` up by `shift`. */
  method MoveUp(buff: array<byte>, from: nat, to: nat, shift: nat)
    requires from <= to && to + shift <= buff.Length
    modifies buff
    ensures buff[..from] == old(buff[..from]) && buff[from + shift..to + shift] == old(buff[from..to])
  {
    forall i | from + shift <= i < to + shift {
      buff[i] := buff[i - shift];
    }
  }

  /** `memcpy` of `s` to `at`. */
  method CopyTo(buff: array<byte>, at: nat, s: seq<byte>)
    requires at + |s| <= buff.Length
    modifies buff
    ensures buff[..at + |s|] == old(buff[..at]) + s && buff[at + |s|..] == old(buff[at + |s|..])
  {
    forall i | 0 <= i < |s| {
      buff[at + i] := s[i];
    }
  }

  lemma {:induction false} Slices(s: seq<byte>, i: nat, k: nat)
    requires i <= k <= |s|
    ensures s[..k] == s[..i] + s[i..k] && s[i..k] == s[i..][..k - i] && s[..k][..i] == s[..i] && s[..k][i..] == s[i..k]
  {
  }

  /** `s` put in at `from`, in front of the bytes up to `to`. */
  method Insert(buff: array<byte>, from: nat, to: nat, s: seq<byte>)
    requires from <= to && to + |s| <= buff.Length
    modifies buff
    ensures buff[..to + |s|] == old(buff[..from]) + (s + old(buff[from..to]))
  {
    MoveUp(buff, from, to, |s|);
    Slices(buff[..], from + |s|, to + |s|);
    CopyTo(buff, from, s);
    Slices(buff[..], from + |s|, to + |s|);
    Regroup(old(buff[..from]), s, old(buff[from..to]));
  }

  /** `k` bytes of `n`, least significant first. */
  method PutFixed(buff: array<byte>, at: nat, n: nat, k: nat)
    requires at + k <= buff.Length
    modifies buff
    ensures buff[..at + k] == old(buff[..at]) + LittleEndian(n, k)
  {
    var rest, i := n, 0;
    while i < k
      invariant i <= k && buff[..at] == old(buff[..at]) &&
                LittleEndian(n, k) == buff[at..at + i] + LittleEndian(rest, k - i)
    {
      ghost var done := buff[at..at + i];
      Regroup(done, [rest % 256], LittleEndian(rest / 256, k - i - 1));
      buff[at + i] := rest % 256;
      assert buff[at..at + i + 1] == done + [rest % 256];
      rest, i := rest / 256, i + 1;
    }
    Slices(buff[..], at, at + k);
  }

  /** A number written and read again, by whichever of the readers the slice allows. */
  method WriteThenRead(n: u64) returns (v: u64, written: nat, read: nat)
    ensures v == n && read == written == |Digits(n)|
  {
    hide Digits, Varint;
    var buff := new byte[10];
    written := Write64(buff, 0, n);
    var s := new Slice(buff[..], 0, written);
    assert s.Rest() == buff[..written] == Digits(n);
    WrittenReads(s.Rest(), n);
    read, v := s.ReadVarint64();
  }

  class Buffer {
    var buf: array<byte>
    var size: nat

    ghost predicate Valid()
      reads this
    {
      size <= buf.Length < WORD
    }

    function Contents(): seq<byte>
      reads this, buf
      requires Valid()
    {
      buf[..size]
    }

    constructor ()
      ensures Valid() && fresh(buf) && Contents() == []
    {
      buf, size := new byte[SSO_SIZE], 0;
    }

    /** `pb_prepbuffsize`: room for `len` more bytes, in a buffer that grows by half until they fit. */
    method Prep(len: nat) returns (ok: bool)
      requires Valid()
      modifies this
      ensures Valid() && size == old(size) && Contents() == old(Contents()) && (buf == old(buf) || fresh(buf))
      ensures ok ==> size + len <= buf.Length
      ensures size + len <= LIMIT ==> ok
      ensures size + len <= old(buf.Length) ==> ok && buf == old(buf)
    {
      if size + len > buf.Length {
        var expected, newsize := size + len, SSO_SIZE;
        while newsize < LIMIT && newsize < expected
          invariant SSO_SIZE <= newsize <= LIMIT + LIMIT / 2
        {
          newsize := newsize + newsize / 2;
        }
        if newsize < expected {
          return false;
        }
        var grown := new byte[newsize];
        forall i | 0 <= i < size {
          grown[i] := buf[i];
        }
        buf := grown;
      }
      return true;
    }

    method AddVarint32(n: u32) returns (l: nat)
      requires Valid()
      modifies this, buf
      ensures Valid() && (buf == old(buf) || fresh(buf))
      ensures l == 0 ==> Contents() == old(Contents())
      ensures l > 0 ==> l == |Digits(n)| && Contents() == old(Contents()) + Digits(n)
      ensures old(size) + 5 <= LIMIT ==> l > 0
      ensures old(size) + 5 <= old(buf.Length) ==> l > 0 && buf == old(buf)
    {
      var ok := Prep(5);
      if !ok {
        return 0;
      }
      l := Write32(buf, size, n);
      size := size + l;
    }

    method AddVarint64(n: u64) returns (l: nat)
      requires Valid()
      modifies this, buf
      ensures Valid() && (buf == old(buf) || fresh(buf))
      ensures l == 0 ==> Contents() == old(Contents())
      ensures l > 0 ==> l == |Digits(n)| && Contents() == old(Contents()) + Digits(n)
      ensures old(size) + 10 <= LIMIT ==> l > 0
    {
      var ok := Prep(10);
      if !ok {
        return 0;
      }
      l := Write64(buf, size, n);
      size := size + l;
    }

    /** A length written to an array of its own. */
    static method Length(n: u64) returns (s: seq<byte>)
      ensures s == Digits(n) && 0 < |s| <= 10
    {
      hide Digits;
      DigitCounts(n);
      var length := new byte[10];
      var l := Write64(length, 0, n);
      s := length[..l];
      assert length[..0] == [];
    }

    /** `pb_addlength`: moves what was written since `from` up and puts its length in front. */
    method AddLength(from: nat) returns (ml: nat)
      requires Valid()
      modifies this, buf
      ensures Valid() && (buf == old(buf) || fresh(buf))
      ensures ml == 0 ==> Contents() == old(Contents())
      ensures ml > 0 ==> from <= old(size) && Contents() == old(Contents()[..from]) + Prefixed(old(Contents()[from..]))
      ensures from <= old(size) && old(size) + |Digits(old(size) - from)| <= LIMIT ==> ml > 0
    {
      var bl := size;
      if bl < from {
        return 0;
      }
      hide Digits;
      var digits := Length(bl - from);
      ml := |digits|;
      var ok := Prep(ml);
      if !ok {
        return 0;
      }
      PutIn(from, digits);
    }

    /** `s` put in at `from`, where there is room for it. */
    method PutIn(from: nat, s: seq<byte>)
      requires Valid() && from <= size && size + |s| <= buf.Length
      modifies this`size, buf
      ensures Valid() && Contents() == old(Contents()[..from]) + (s + old(Contents()[from..]))
    {
      ghost var before := Contents();
      Slices(buf[..], from, size);
      assert before[..from] == buf[..from] && before[from..] == buf[from..size];
      Insert(buf, from, size, s);
      size := size + |s|;
    }

    /** `pb_addslice`. */
    method AddSlice(s: seq<byte>) returns (l: nat)
      requires Valid()
      modifies this, buf
      ensures Valid() && (buf == old(buf) || fresh(buf))
      ensures (l == 0 && Contents() == old(Contents())) || (l == |s| && Contents() == old(Contents()) + s)
      ensures old(size) + |s| <= LIMIT || old(size) + |s| <= old(buf.Length) ==>
                l == |s| && Contents() == old(Contents()) + s
    {
      var ok := Prep(|s|);
      if !ok {
        return 0;
      }
      CopyTo(buf, size, s);
      size := size + |s|;
      l := |s|;
    }

    /** `pb_addbytes`: the length, cut to 32 bits, and the bytes, or nothing. */
    method AddBytes(s: seq<byte>) returns (l: nat)
      requires Valid()
      modifies this, buf
      ensures Valid() && (buf == old(buf) || fresh(buf))
      ensures l == 0 ==> Contents() == old(Contents())
      ensures l > 0 ==>
                l == |Digits(Low32(|s|))| + |s| && Contents() == old(Contents()) + (Digits(Low32(|s|)) + s)
      ensures old(size) + |s| + 5 <= LIMIT ==> l > 0
    {
      hide Digits;
      ghost var before := Contents();
      var ok := Prep(|s| + 5);
      if !ok {
        return 0;
      }
      var ret := AddVarint32(Low32(|s|));
      DigitCounts(Low32(|s|));
      l := AddSlice(s);
      l := ret + l;
      Regroup(before, Digits(Low32(|s|)), s);
    }

    /** `pb_addfixed32` and `pb_addfixed64`: `k` bytes, least significant first, or nothing. */
    method AddFixed(n: nat, k: nat) returns (l: nat)
      requires Valid()
      modifies this, buf
      ensures Valid() && (buf == old(buf) || fresh(buf))
      ensures (l == 0 && Contents() == old(Contents())) ||
              (l == k && Contents() == old(Contents()) + LittleEndian(n, k))
      ensures old(size) + k <= LIMIT ==> l == k && Contents() == old(Contents()) + LittleEndian(n, k)
    {
      var ok := Prep(k);
      if !ok {
        return 0;
      }
      PutFixed(buf, size, n, k);
      size := size + k;
      l := k;
    }
  }
}
