/** The protobuf decoder of pb.h and pb.c: a slice is read field by field into a table. */
module PbDecode {
  import opened Basics
  import opened PbVarint
  import opened PbSlice
  import opened PbMessageSpec
  import opened PbBuffer
  import opened PbEncode
  import opened PbRoundTrip

  /** `pb_readfixed32` and `pb_readfixed64`: the number is collected from its most significant byte down. */
  method ReadFixed(s: Slice, k: nat) returns (ret: nat, n: nat)
    requires s.Valid()
    modifies s
    ensures s.Valid()
    ensures |old(s.Rest())| < k ==> ret == 0 && s.p == old(s.p)
    ensures |old(s.Rest())| >= k ==> ret == k && s.p == old(s.p) + k && n == FromLittleEndian(old(s.Rest())[..k])
  {
    n := 0;
    if s.p + k > s.end {
      return 0, 0;
    }
    ghost var w := s.Rest()[..k];
    var i := k;
    while i > 0
      invariant i <= k && s.p + k <= s.end && unchanged(s) && n == FromLittleEndian(w[i..])
    {
      i := i - 1;
      assert w[i..][0] == w[i] == s.data[s.p + i] && w[i..][1..] == w[i + 1..];
      n := n * 256 + s.data[s.p + i];
    }
    assert w[0..] == w;
    s.p := s.p + k;
    ret := k;
  }

  lemma {:induction false} Within<T>(data: seq<T>, p: nat, end: nat, i: nat, j: nat)
    requires p <= end <= |data| && i <= j <= end - p
    ensures data[p..end][i..j] == data[p + i..p + j]
  {
    var w, v := data[p..end], data[p + i..p + j];
    assert |w[i..j]| == j - i == |v|;
    forall k | 0 <= k < j - i ensures w[i..j][k] == v[k] {
      assert w[i..j][k] == w[i + k];
    }
  }

  lemma {:induction false} Onwards<T>(data: seq<T>, p: nat, end: nat, i: nat)
    requires p <= end <= |data| && i <= end - p
    ensures data[p..end][i..] == data[p + i..end]
  {
  }

  /** How a skipped value moves a slice. */
  twostate predicate Skipped(s: Slice, ret: nat, n: nat)
    requires old(s.Valid())
    reads s
  {
    s.Valid() && ret == n && s.p == old(s.p) + n
  }

  method SkipVarintOf(s: Slice) returns (ret: nat)
    requires s.Valid()
    modifies s
    ensures Skipped(s, ret, SkipVarint(old(s.Rest())))
  {
    var p := s.p;
    ghost var w := s.Rest();
    while p < s.end && s.data[p] >= 128
      invariant s.p <= p <= s.end && unchanged(s)
      invariant SkipVarint(w) == Beyond(p - s.p, SkipVarint(w[p - s.p..]))
    {
      assert w[p - s.p..][0] == s.data[p] && w[p - s.p..][1..] == w[p + 1 - s.p..];
      p := p + 1;
    }
    if p >= s.end {
      return 0;
    }
    assert w[p - s.p..][0] == s.data[p];
    ret := p + 1 - s.p;
    s.p := p + 1;
  }

  /** A count of what follows `off` bytes, counted from before them; 0 stays 0. */
  function Beyond(off: nat, n: nat): nat {
    if n == 0 then 0 else off + n
  }

  method SkipBytesOf(s: Slice) returns (ret: nat)
    requires s.Valid()
    modifies s
    ensures Skipped(s, ret, SkipBytes(old(s.Rest())))
  {
    var p := s.p;
    var count, len := s.ReadVarint64();
    if count == 0 {
      return 0;
    }
    if s.Len() < len {
      s.p := p;
      return 0;
    }
    s.p := s.p + len;
    ret := s.p - p;
  }

  /** `pb_readgroup`. */
  method SkipGroupOf(s: Slice, tag: u32) returns (ret: nat)
    requires s.Valid()
    modifies s
    ensures Skipped(s, ret, SkipGroup(old(s.Rest()), tag / 8))
    decreases s.end - s.p, 0
  {
    hide Varint, SkipValue, SkipGroup, Low32;
    var p := s.p;
    ghost var w := s.Rest();
    while true
      invariant s.Valid() && p <= s.p && w == s.data[p..s.end]
      invariant SkipGroup(w, tag / 8) == Beyond(s.p - p, SkipGroup(s.Rest(), tag / 8))
      decreases s.end - s.p
    {
      ghost var at := s.p;
      GroupCases(s.Rest(), tag / 8);
      var count, newtag := s.ReadVarint32();
      if count == 0 {
        s.p := p;
        return 0;
      }
      Onwards(s.data, at, s.end, count);
      if newtag % 8 == TGEND {
        if newtag / 8 != tag / 8 {
          s.p := p;
          return 0;
        }
        return s.p - p;
      }
      var n := SkipValueOf(s, newtag);
      if n == 0 {
        s.p := p;
        return 0;
      }
      Onwards(s.data, at, s.end, count + n);
    }
  }

  lemma {:induction false} GroupCases(s: seq<byte>, number: nat)
    ensures match Varint(s, 10)
            case Bad => SkipGroup(s, number) == 0
            case Good(v, used) =>
              var tag := Low32(v);
              if tag % 8 == TGEND then SkipGroup(s, number) == (if tag / 8 == number then used else 0)
              else
                var n := SkipValue(s[used..], tag);
                SkipGroup(s, number) == if n == 0 then 0 else Beyond(used + n, SkipGroup(s[used + n..], number))
  {
    hide Varint, SkipValue, Low32;
  }

  /** `pb_skipvalue`. */
  method SkipValueOf(s: Slice, tag: u32) returns (ret: nat)
    requires s.Valid()
    modifies s
    ensures Skipped(s, ret, SkipValue(old(s.Rest()), tag))
    decreases s.end - s.p, 1
  {
    var p := s.p;
    ret := 0;
    if tag % 8 == TVARINT {
      ret := SkipVarintOf(s);
    } else if tag % 8 == T64BIT {
      ret := SkipSliceOf(s, 8);
    } else if tag % 8 == TBYTES {
      ret := SkipBytesOf(s);
    } else if tag % 8 == T32BIT {
      ret := SkipSliceOf(s, 4);
    } else if tag % 8 == TGSTART {
      ret := SkipGroupOf(s, tag);
    }
    if ret == 0 {
      s.p := p;
    }
  }

  method SkipSliceOf(s: Slice, len: nat) returns (ret: nat)
    requires s.Valid()
    modifies s
    ensures Skipped(s, ret, if s.end - old(s.p) < len then 0 else len)
  {
    if s.p + len > s.end {
      return 0;
    }
    s.p := s.p + len;
    ret := len;
  }

  /** `lpb_readbytes`: a slice of its own for the bytes. */
  method ReadBytesOf(s: Slice) returns (ok: bool, sub: Slice)
    requires s.Valid()
    modifies s
    ensures s.Valid() && fresh(sub) && sub.Valid() && sub.data == s.data
    ensures match ReadBytes(old(s.Rest()))
            case Err => !ok
            case Ok((from, to)) => ok && s.p == old(s.p) + to && sub.p == old(s.p) + from && sub.end == s.p
  {
    var count, len := s.ReadVarint64();
    if count == 0 || len > MAX_SIZE || s.Len() < len {
      sub := new Slice(s.data, 0, 0);
      return false, sub;
    }
    sub := new Slice(s.data, s.p, s.p + len);
    s.p := s.p + len;
    ok := true;
  }

  /** `lpbD_rawfield`. */
  method RawField(s: Slice, schema: Schema, k: Kind) returns (r: Result<Value>)
    requires s.Valid()
    modifies s
    ensures s.Valid()
    ensures match DecodeRaw(schema, k, old(s.Rest()))
            case Err => r == Err
            case Ok((v, used)) => r == Ok(v) && s.p == old(s.p) + used
    decreases s.end - s.p, 1
  {
    hide Varint, FromLittleEndian, DecodeFields;
    if WireType(k) == TVARINT {
      ghost var read := Varint(s.Rest(), 10);
      var count, n := s.ReadVarint64();
      if count == 0 {
        return Err;
      }
      ReadAs(k, read.value);
      r := Ok(ScalarValue(k, n));
    } else if WireType(k) == T32BIT {
      var count, n := ReadFixed(s, 4);
      r := if count == 0 then Err else Ok(ScalarValue(k, n));
    } else if WireType(k) == T64BIT {
      var count, n := ReadFixed(s, 8);
      r := if count == 0 then Err else Ok(ScalarValue(k, n));
    } else {
      ghost var w, start := s.Rest(), s.p;
      var ok, sub := ReadBytesOf(s);
      if !ok {
        return Err;
      }
      Within(s.data, start, s.end, ReadBytes(w).value.0, ReadBytes(w).value.1);
      if !k.MessageOf? {
        r := Ok(Text(sub.data[sub.p..sub.end]));
      } else if k.t >= |schema| {
        r := Err;
      } else {
        var table := DecodeTable(sub, schema, schema[k.t], []);
        r := if table.Err? then Err else Ok(Message(table.value));
      }
    }
  }

  /** A varint is read as 64 bits, and cut to the size of its field afterwards. */
  lemma {:induction false} ReadAs(k: Kind, n: nat)
    requires WireType(k) == TVARINT
    ensures ScalarValue(k, Low64(n)) == ScalarValue(k, n)
  {
    LowTwice(n);
    LowSmall(Low64(n));
  }

  lemma {:induction false} NextElement(schema: Schema, k: Kind, s: seq<byte>)
    requires s != []
    ensures DecodePacked(schema, k, s) ==
            match DecodeRaw(schema, k, s)
            case Err => Err
            case Ok((v, used)) =>
              match DecodePacked(schema, k, s[used..])
              case Err => Err
              case Ok(vs) => Ok([v] + vs)
  {
    hide DecodeRaw;
  }

  lemma {:induction false} NoElement(schema: Schema, k: Kind, s: seq<byte>)
    requires |s| == 0
    ensures DecodePacked(schema, k, s) == Ok([])
  {
  }

  /** The loop of `lpbD_repeated` over a packed list. */
  method PackedList(p: Slice, schema: Schema, k: Kind) returns (r: Result<seq<Value>>)
    requires p.Valid()
    modifies p
    ensures p.Valid() && r == DecodePacked(schema, k, old(p.Rest()))
    decreases p.end - p.p, 2
  {
    hide DecodeRaw, DecodePacked;
    ghost var w := p.Rest();
    var vs := [];
    JoinNothing(DecodePacked(schema, k, w));
    while p.p < p.end
      invariant p.Valid() && p.p >= old(p.p)
      invariant DecodePacked(schema, k, w) == Join(vs, DecodePacked(schema, k, p.Rest()))
      decreases p.end - p.p
    {
      ghost var rest := p.Rest();
      NextElement(schema, k, rest);
      var one := RawField(p, schema, k);
      if one.Err? {
        return Err;
      }
      assert p.Rest() == rest[DecodeRaw(schema, k, rest).value.1..];
      JoinNext(vs, one.value, DecodePacked(schema, k, p.Rest()));
      vs := vs + [one.value];
    }
    NoElement(schema, k, p.Rest());
    assert vs + [] == vs;
    r := Ok(vs);
  }

  function Join(vs: seq<Value>, r: Result<seq<Value>>): Result<seq<Value>> {
    match r
    case Err => Err
    case Ok(more) => Ok(vs + more)
  }

  lemma {:induction false} JoinNothing(r: Result<seq<Value>>)
    ensures Join([], r) == r
  {
    if r.Ok? {
      assert [] + r.value == r.value;
    }
  }

  lemma {:induction false} JoinNext(vs: seq<Value>, v: Value, r: Result<seq<Value>>)
    ensures Join(vs, Join([v], r)) == Join(vs + [v], r)
  {
    if r.Ok? {
      Regroup(vs, [v], r.value);
    }
  }

  /** `lpbD_repeated` and `lpbD_field`: the value of one field goes into the table. */
  method FieldInto(s: Slice, schema: Schema, ft: FieldType, tag: u32, acc: seq<Field>) returns (r: Result<seq<Field>>)
    requires s.Valid()
    modifies s
    ensures s.Valid()
    ensures match DecodeKnown(schema, ft, tag, old(s.Rest()), acc)
            case Err => r == Err
            case Ok((acc', used)) => r == Ok(acc') && s.p == old(s.p) + used
    decreases s.end - s.p, 3
  {
    hide DecodeRaw, DecodePacked, ReadBytes, Put, ListAt, WireType;
    if ft.repeated && !(tag % 8 != TBYTES || (!ft.packed && WireType(ft.kind) == TBYTES)) {
      ghost var w, start := s.Rest(), s.p;
      var ok, sub := ReadBytesOf(s);
      if !ok {
        return Err;
      }
      Within(s.data, start, s.end, ReadBytes(w).value.0, ReadBytes(w).value.1);
      var vs := PackedList(sub, schema, ft.kind);
      r := if vs.Err? then Err else Ok(Put(acc, ft.number, Items(ListAt(acc, ft.number) + vs.value)));
    } else if WireType(ft.kind) != tag % 8 {
      r := Err;
    } else {
      var v := RawField(s, schema, ft.kind);
      r := if v.Err? then Err
           else Ok(Put(acc, ft.number, if ft.repeated then Items(ListAt(acc, ft.number) + [v.value]) else v.value));
    }
  }

  lemma {:induction false} NextField(schema: Schema, t: seq<FieldType>, s: seq<byte>, acc: seq<Field>)
    ensures DecodeFields(schema, t, s, acc) ==
            match Varint(s, 10)
            case Bad => Ok(acc)
            case Good(v, used) =>
              var tag := Low32(v);
              match Lookup(t, tag / 8)
              case None => DecodeFields(schema, t, s[used + SkipValue(s[used..], tag)..], acc)
              case Some(ft) =>
                match DecodeKnown(schema, ft, tag, s[used..], acc)
                case Err => Err
                case Ok((acc', n)) => DecodeFields(schema, t, s[used + n..], acc')
  {
    hide Varint, SkipValue, DecodeKnown, Lookup;
  }

  /** `lpbD_message`. */
  method DecodeTable(s: Slice, schema: Schema, t: seq<FieldType>, acc: seq<Field>) returns (r: Result<seq<Field>>)
    requires s.Valid()
    modifies s
    ensures s.Valid() && r == DecodeFields(schema, t, old(s.Rest()), acc)
    decreases s.end - s.p, 0
  {
    hide Varint, SkipValue, DecodeKnown, Lookup, DecodeFields;
    ghost var w := s.Rest();
    var table := acc;
    while true
      invariant s.Valid() && s.p >= old(s.p)
      invariant DecodeFields(schema, t, w, acc) == DecodeFields(schema, t, s.Rest(), table)
      decreases s.end - s.p
    {
      ghost var rest := s.Rest();
      NextField(schema, t, rest, table);
      var count, tag := s.ReadVarint32();
      if count == 0 {
        return Ok(table);
      }
      assert s.Rest() == rest[count..];
      var f := Lookup(t, tag / 8);
      if f.None? {
        var n := SkipValueOf(s, tag);
        assert s.Rest() == rest[count + n..];
      } else {
        ghost var before := table;
        var known := FieldInto(s, schema, f.value, tag, table);
        if known.Err? {
          return Err;
        }
        table := known.value;
        assert s.Rest() == rest[count + DecodeKnown(schema, f.value, tag, rest[count..], before).value.1..];
      }
    }
  }

  /** `Lpb_encode` into a new buffer and `Lpb_decode` of what it holds: the table comes back. */
  method EncodeThenDecode(schema: Schema, t: nat, fs: seq<Field>) returns (r: Result<seq<Field>>)
    requires ValidSchema(schema) && t < |schema| && TypedFields(schema, schema[t], fs) && Plain(fs)
    requires Room(0, |EncodeFields(schema, schema[t], fs)|)
    ensures r == Ok(fs)
  {
    hide TypedFields, EncodeFields, DecodeFields, Plain, ValidSchema, KnownFields;
    var b := new Buffer();
    var ok := EncodeTable(b, schema, schema[t], fs);
    var bytes := b.Contents();
    assert bytes == [] + EncodeFields(schema, schema[t], fs) == EncodeFields(schema, schema[t], fs);
    var s := new Slice(bytes, 0, |bytes|);
    assert s.Rest() == bytes;
    MessageRoundTrip(schema, t, fs);
    r := DecodeTable(s, schema, schema[t], []);
  }
}
