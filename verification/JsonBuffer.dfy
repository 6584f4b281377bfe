/** `strbuf_t`: the growing string buffer both directions use, with appends that check for room and appends that do
    not. */
module JsonBuffer {
  import opened Basics

  /** `STRBUF_DEFAULT_SIZE`. */
  const DEFAULT_SIZE: int := 1023

  lemma {:induction false} Extends(s: seq<byte>, t: seq<byte>, i: nat, w: seq<byte>)
    requires i + |w| <= |s| == |t| && t[..i] == s[..i] && t[i..i + |w|] == w
    ensures t[..i + |w|] == s[..i] + w
  {
  }

  class StrBuf {
    var buf: array<byte>
    var length: nat

    /** There is always room for a terminating zero. */
    ghost predicate Valid()
      reads this
    {
      length < buf.Length
    }

    ghost function Contents(): seq<byte>
      reads this, buf
      requires Valid()
    {
      buf[..length]
    }

    /** `strbuf_empty_length`. */
    function EmptyLength(): int
      reads this
    {
      buf.Length - length - 1
    }

    /** `strbuf_init`. */
    constructor (len: int)
      ensures Valid() && fresh(buf) && Contents() == [] && buf.Length == if len <= 0 then DEFAULT_SIZE else len + 1
    {
      var size := DEFAULT_SIZE;
      if len > 0 {
        size := len + 1;
      }
      buf := new byte[size];
      length := 0;
      new;
      EnsureNull();
    }

    /** `strbuf_ensure_null`: the zero behind the contents. */
    method EnsureNull()
      requires Valid()
      modifies buf
      ensures Contents() == old(Contents()) && buf[length] == 0
    {
      buf[length] := 0;
    }

    /** `strbuf_reset`. */
    method Reset()
      requires Valid()
      modifies this`length
      ensures Valid() && Contents() == []
    {
      length := 0;
    }

    /** `calculate_new_size`, where the size doubles. */
    method NewSize(len: nat) returns (size: nat)
      requires Valid() && len > 0
      ensures len < size && (buf.Length > len + 1 ==> size == len + 1)
    {
      if buf.Length > len + 1 {
        return len + 1;
      }
      size := buf.Length;
      while size < len + 1
        invariant size > 0
        decreases len + 1 - size
      {
        size := size * 2;
      }
    }

    /** `strbuf_resize`, to hold at least what is there. */
    method Resize(len: nat)
      requires Valid() && 0 < len && length <= len
      modifies this`buf
      ensures Valid() && fresh(buf) && buf.Length > len && Contents() == old(Contents())
    {
      var size := NewSize(len);
      var moved := new byte[size];
      forall i | 0 <= i < length {
        moved[i] := buf[i];
      }
      assert moved[..length] == buf[..length];
      buf := moved;
    }

    /** `strbuf_ensure_empty_length`. */
    method EnsureEmptyLength(len: nat)
      requires Valid()
      modifies this`buf
      ensures Valid() && (buf == old(buf) || fresh(buf)) && Contents() == old(Contents()) && EmptyLength() >= len
      ensures old(EmptyLength()) >= len ==> buf == old(buf)
    {
      if len > EmptyLength() {
        Resize(length + len);
      }
    }

    /** `strbuf_append_char_unsafe`: the caller made sure that there is room. */
    method AppendCharUnsafe(c: byte)
      requires Valid() && EmptyLength() >= 1
      modifies this`length, buf
      ensures Valid() && Contents() == old(Contents()) + [c] && length == old(length) + 1
    {
      buf[length] := c;
      length := length + 1;
    }

    /** `strbuf_append_char`. */
    method AppendChar(c: byte)
      requires Valid()
      modifies this, buf
      ensures Valid() && (buf == old(buf) || fresh(buf)) && Contents() == old(Contents()) + [c]
    {
      EnsureEmptyLength(1);
      AppendCharUnsafe(c);
    }

    /** `strbuf_append_mem_unsafe`. */
    method AppendMemUnsafe(s: seq<byte>)
      requires Valid() && EmptyLength() >= |s|
      modifies this`length, buf
      ensures Valid() && Contents() == old(Contents()) + s && length == old(length) + |s|
    {
      ghost var before := buf[..];
      forall i | 0 <= i < |s| {
        buf[length + i] := s[i];
      }
      Extends(before, buf[..], length, s);
      length := length + |s|;
    }

    /** `strbuf_append_mem`. */
    method AppendMem(s: seq<byte>)
      requires Valid()
      modifies this, buf
      ensures Valid() && (buf == old(buf) || fresh(buf)) && Contents() == old(Contents()) + s
    {
      EnsureEmptyLength(|s|);
      AppendMemUnsafe(s);
    }

    /** `strbuf_append_string`, of the bytes before the zero: it moves the contents only when they do not fit. */
    method AppendString(s: seq<byte>)
      requires Valid()
      modifies this, buf
      ensures Valid() && (buf == old(buf) || fresh(buf)) && Contents() == old(Contents()) + s
      ensures length == old(length) + |s| && (old(EmptyLength()) >= |s| ==> buf == old(buf))
    {
      var space := EmptyLength();
      var i := 0;
      while i < |s|
        invariant 0 <= i <= |s| && Valid() && (buf == old(buf) || fresh(buf)) && space == EmptyLength()
        invariant Contents() == old(Contents()) + s[..i] && length == old(length) + i
        invariant old(EmptyLength()) >= |s| ==> buf == old(buf)
      {
        if space < 1 {
          Resize(length + 1);
          space := EmptyLength();
        }
        AppendCharUnsafe(s[i]);
        space := space - 1;
        assert s[..i + 1] == s[..i] + [s[i]];
        i := i + 1;
      }
      assert s[..i] == s;
    }
  }
}
