/** The protobuf encoder of pb.c: it appends to a buffer, and puts lengths in front of what it has appended. */
module PbEncode {
  import opened Basics
  import opened PbVarint
  import opened PbMessageSpec
  import opened PbBuffer
  import opened PbRoundTrip

  /** Room for `n` more bytes and for the ten that a varint reserves. */
  predicate Room(size: nat, n: nat) {
    size + n + 10 <= LIMIT
  }

  /** `lpb_addtype`. */
  method AddType(b: Buffer, k: Kind, v: Value)
    requires b.Valid() && ScalarOf(k, v)
    modifies b, b.buf
    ensures b.Valid() && (b.buf == old(b.buf) || fresh(b.buf))
    ensures Room(old(b.size), |ScalarBytes(k, v)|) ==> b.Contents() == old(b.Contents()) + ScalarBytes(k, v)
  {
    var l;
    match k
    case Bool => l := b.AddVarint32(if v.b then 1 else 0);
    case Int32 => l := b.AddVarint64(ExpandSig(Low32(v.n)));
    case UInt32 => l := b.AddVarint32(Low32(v.n));
    case SInt32 => l := b.AddVarint32(EncodeSint32(v.n));
    case Int64 => l := b.AddVarint64(Low64(v.n));
    case UInt64 => l := b.AddVarint64(Low64(v.n));
    case SInt64 => l := b.AddVarint64(EncodeSint64(v.n));
    case Fixed32 => l := b.AddFixed(Low32(v.n), 4);
    case SFixed32 => l := b.AddFixed(Low32(v.n), 4);
    case Float => l := b.AddFixed(v.bits, 4);
    case Fixed64 => l := b.AddFixed(Low64(v.n), 8);
    case SFixed64 => l := b.AddFixed(Low64(v.n), 8);
    case Double => l := b.AddFixed(v.bits, 8);
    case Bytes => l := b.AddBytes(v.s);
    case String => l := b.AddBytes(v.s);
  }

  lemma {:induction false} Embedded(whole: seq<byte>, before: seq<byte>, s: seq<byte>)
    requires whole == before + s
    ensures whole[..|before|] == before && whole[|before|..] == s
  {
  }

  /** `lpbE_field`: a message is encoded first, and its length put in front of it. It fails when that does. */
  method EncodeOne(b: Buffer, schema: Schema, k: Kind, v: Value) returns (ok: bool)
    requires b.Valid() && Typed(schema, k, v) && PlainValue(v)
    modifies b, b.buf
    ensures b.Valid() && (b.buf == old(b.buf) || fresh(b.buf))
    ensures Room(old(b.size), |EncodeValue(schema, k, v)|) ==>
              ok && b.Contents() == old(b.Contents()) + EncodeValue(schema, k, v)
    decreases v, 0
  {
    if k.MessageOf? {
      ok := EncodeLengthOf(b, schema, k.t, v.fields);
    } else {
      AddType(b, k, v);
      ok := true;
    }
  }

  method EncodeLengthOf(b: Buffer, schema: Schema, t: nat, fs: seq<Field>) returns (ok: bool)
    requires b.Valid() && t < |schema| && TypedFields(schema, schema[t], fs) && Plain(fs)
    modifies b, b.buf
    ensures b.Valid() && (b.buf == old(b.buf) || fresh(b.buf))
    ensures var s := Prefixed(EncodeFields(schema, schema[t], fs));
            Room(old(b.size), |s|) ==> ok && b.Contents() == old(b.Contents()) + s
    decreases fs, 1
  {
    hide TypedFields, EncodeFields, Plain, Digits;
    ghost var before, s := b.Contents(), EncodeFields(schema, schema[t], fs);
    var len := b.size;
    ok := EncodeTable(b, schema, schema[t], fs);
    if ok {
      if Room(len, |Prefixed(s)|) {
        Embedded(b.Contents(), before, s);
      }
      var ml := b.AddLength(len);
      ok := ml != 0;
    }
  }

  /** `lpbE_tagfield`, where a zero is not left out. */
  method EncodeTagField(b: Buffer, schema: Schema, ft: FieldType, v: Value) returns (ok: bool)
    requires b.Valid() && Typed(schema, ft.kind, v) && PlainValue(v)
    modifies b, b.buf
    ensures b.Valid() && (b.buf == old(b.buf) || fresh(b.buf))
    ensures var s := Digits(Pair(ft.number, WireType(ft.kind))) + EncodeValue(schema, ft.kind, v);
            Room(old(b.size), |s|) ==> ok && b.Contents() == old(b.Contents()) + s
    decreases v, 1
  {
    hide Typed, EncodeValue, PlainValue, Digits, Pair, WireType;
    ghost var before := b.Contents();
    var hlen := b.AddVarint32(Pair(ft.number, WireType(ft.kind)));
    ok := EncodeOne(b, schema, ft.kind, v);
    Regroup(before, Digits(Pair(ft.number, WireType(ft.kind))), EncodeValue(schema, ft.kind, v));
  }

  lemma {:induction false} NextPacked(schema: Schema, k: Kind, vs: seq<Value>, i: nat)
    requires i < |vs| && AllTyped(schema, k, vs[i..]) && AllPlain(vs[i..])
    ensures Typed(schema, k, vs[i]) && PlainValue(vs[i]) && AllTyped(schema, k, vs[i + 1..]) && AllPlain(vs[i + 1..])
    ensures EncodePacked(schema, k, vs[i..]) == EncodeValue(schema, k, vs[i]) + EncodePacked(schema, k, vs[i + 1..])
  {
    hide EncodeValue, Typed, PlainValue;
    assert vs[i..][0] == vs[i] && vs[i..][1..] == vs[i + 1..];
  }

  lemma {:induction false} NoneLeft(schema: Schema, k: Kind, vs: seq<Value>)
    requires |vs| == 0
    ensures AllTyped(schema, k, vs) && EncodePacked(schema, k, vs) == []
  {
  }

  /** The loop of `lpbE_repeated` over a packed list. */
  method EncodeElements(b: Buffer, schema: Schema, k: Kind, vs: seq<Value>) returns (ok: bool)
    requires b.Valid() && AllTyped(schema, k, vs) && AllPlain(vs)
    modifies b, b.buf
    ensures b.Valid() && (b.buf == old(b.buf) || fresh(b.buf))
    ensures Room(old(b.size), |EncodePacked(schema, k, vs)|) ==>
              ok && b.Contents() == old(b.Contents()) + EncodePacked(schema, k, vs)
    decreases vs, 0
  {
    hide EncodePacked, EncodeValue, AllTyped, Typed, AllPlain, PlainValue;
    ghost var before, done := b.Contents(), [];
    ok := true;
    var i := 0;
    assert vs[0..] == vs && [] + EncodePacked(schema, k, vs) == EncodePacked(schema, k, vs);
    while i < |vs|
      invariant i <= |vs| && AllTyped(schema, k, vs[i..]) && AllPlain(vs[i..]) && b.Valid()
      invariant b.buf == old(b.buf) || fresh(b.buf)
      invariant EncodePacked(schema, k, vs) == done + EncodePacked(schema, k, vs[i..])
      invariant Room(|before|, |EncodePacked(schema, k, vs)|) ==> b.Contents() == before + done
    {
      NextPacked(schema, k, vs, i);
      ghost var one, others := EncodeValue(schema, k, vs[i]), EncodePacked(schema, k, vs[i + 1..]);
      ok := EncodeOne(b, schema, k, vs[i]);
      if !ok {
        return;
      }
      Regroup(done, one, others);
      Regroup(before, done, one);
      done, i := done + one, i + 1;
    }
    NoneLeft(schema, k, vs[i..]);
    assert done + [] == done;
  }

  /** The loop of `lpbE_repeated` over a list that is not packed. */
  method EncodeTaggedElements(b: Buffer, schema: Schema, ft: FieldType, vs: seq<Value>) returns (ok: bool)
    requires b.Valid() && AllTyped(schema, ft.kind, vs) && AllPlain(vs)
    modifies b, b.buf
    ensures b.Valid() && (b.buf == old(b.buf) || fresh(b.buf))
    ensures Room(old(b.size), |EncodeTagged(schema, ft, vs)|) ==>
              ok && b.Contents() == old(b.Contents()) + EncodeTagged(schema, ft, vs)
    decreases vs, 0
  {
    ghost var before, done := b.Contents(), [];
    ok := true;
    var i := 0;
    while i < |vs|
      invariant i <= |vs| && AllTyped(schema, ft.kind, vs[i..]) && AllPlain(vs[i..]) && b.Valid()
      invariant b.buf == old(b.buf) || fresh(b.buf)
      invariant EncodeTagged(schema, ft, vs) == done + EncodeTagged(schema, ft, vs[i..])
      invariant Room(|before|, |EncodeTagged(schema, ft, vs)|) ==> b.Contents() == before + done
    {
      assert vs[i..][0] == vs[i] && vs[i..][1..] == vs[i + 1..];
      ghost var one := Digits(Pair(ft.number, WireType(ft.kind))) + EncodeValue(schema, ft.kind, vs[i]);
      ghost var others := EncodeTagged(schema, ft, vs[i + 1..]);
      ok := EncodeTagField(b, schema, ft, vs[i]);
      if !ok {
        return;
      }
      Regroup(done, one, others);
      Regroup(before, done, one);
      done, i := done + one, i + 1;
    }
    assert EncodeTagged(schema, ft, vs[i..]) == [];
  }

  /** `lpbE_repeated`. */
  method EncodeRepeated(b: Buffer, schema: Schema, ft: FieldType, vs: seq<Value>) returns (ok: bool)
    requires b.Valid() && AllTyped(schema, ft.kind, vs) && AllPlain(vs)
    modifies b, b.buf
    ensures b.Valid() && (b.buf == old(b.buf) || fresh(b.buf))
    ensures var s := if ft.packed then Digits(Pair(ft.number, TBYTES)) + Prefixed(EncodePacked(schema, ft.kind, vs))
                     else EncodeTagged(schema, ft, vs);
            Room(old(b.size), |s|) ==> ok && b.Contents() == old(b.Contents()) + s
    decreases vs, 1
  {
    hide AllTyped, EncodePacked, EncodeTagged, AllPlain, Digits, Pair;
    if ft.packed {
      ghost var before, s := b.Contents(), EncodePacked(schema, ft.kind, vs);
      var hlen := b.AddVarint32(Pair(ft.number, TBYTES));
      ghost var between := b.Contents();
      var len := b.size;
      ok := EncodeElements(b, schema, ft.kind, vs);
      if ok {
        if Room(|before|, |Digits(Pair(ft.number, TBYTES)) + Prefixed(s)|) {
          Embedded(b.Contents(), between, s);
        }
        var ml := b.AddLength(len);
        ok := ml != 0;
        Regroup(before, Digits(Pair(ft.number, TBYTES)), Prefixed(s));
      }
    } else {
      ok := EncodeTaggedElements(b, schema, ft, vs);
    }
  }

  /** One entry of the loop of `lpb_encode`. */
  method EncodeEntry(b: Buffer, schema: Schema, t: seq<FieldType>, f: Field) returns (ok: bool)
    requires b.Valid() && TypedField(schema, t, f) && PlainField(f)
    modifies b, b.buf
    ensures b.Valid() && (b.buf == old(b.buf) || fresh(b.buf))
    ensures Room(old(b.size), |EncodeField(schema, t, f)|) ==>
              ok && b.Contents() == old(b.Contents()) + EncodeField(schema, t, f)
    decreases f
  {
    hide Digits, Pair, EncodeValue, EncodeTagged, EncodePacked, Typed, AllTyped, Lookup, Prefixed;
    var ft := Lookup(t, f.number).value;
    if ft.repeated {
      ok := EncodeRepeated(b, schema, ft, f.value.vs);
    } else {
      ok := EncodeTagField(b, schema, ft, f.value);
    }
  }

  /** `lpb_encode`: on success, and there is one whenever the bytes fit, the message has been appended. */
  method EncodeTable(b: Buffer, schema: Schema, t: seq<FieldType>, fs: seq<Field>) returns (ok: bool)
    requires b.Valid() && TypedFields(schema, t, fs) && Plain(fs)
    modifies b, b.buf
    ensures b.Valid() && (b.buf == old(b.buf) || fresh(b.buf))
    ensures Room(old(b.size), |EncodeFields(schema, t, fs)|) ==>
              ok && b.Contents() == old(b.Contents()) + EncodeFields(schema, t, fs)
    decreases fs, 0
  {
    ghost var before, done := b.Contents(), [];
    ok := true;
    var i := 0;
    while i < |fs|
      invariant i <= |fs| && TypedFields(schema, t, fs[i..]) && Plain(fs[i..]) && b.Valid()
      invariant b.buf == old(b.buf) || fresh(b.buf)
      invariant EncodeFields(schema, t, fs) == done + EncodeFields(schema, t, fs[i..])
      invariant Room(|before|, |EncodeFields(schema, t, fs)|) ==> b.Contents() == before + done
    {
      assert fs[i..][0] == fs[i] && fs[i..][1..] == fs[i + 1..];
      ghost var one, others := EncodeField(schema, t, fs[i]), EncodeFields(schema, t, fs[i + 1..]);
      ok := EncodeEntry(b, schema, t, fs[i]);
      if !ok {
        return;
      }
      Regroup(done, one, others);
      Regroup(before, done, one);
      done, i := done + one, i + 1;
    }
    assert EncodeFields(schema, t, fs[i..]) == [];
  }
}
