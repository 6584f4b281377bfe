/** Decoding what the encoder wrote gives the message back, whatever unknown fields lie between its own. */
module PbRoundTrip {
  import opened Basics
  import opened PbVarint
  import opened PbMessageSpec

  lemma {:induction false} TagReads(number: nat, wire: nat, rest: seq<byte>)
    requires number < TAGS && wire < 8
    ensures var tag := Pair(number, wire);
            Varint(Digits(tag) + rest, 10) == Good(tag, |Digits(tag)|) && Low32(tag) == tag && tag / 8 == number &&
              tag % 8 == wire
  {
    var tag := Pair(number, wire);
    assert tag == 8 * number + wire;
    DigitCounts(tag);
    VarintRoundTrip(tag, rest, 10);
  }

  lemma {:induction false} PrefixReads(s: seq<byte>, rest: seq<byte>)
    requires |s| <= MAX_SIZE
    ensures ReadBytes(Prefixed(s) + rest) == Ok((|Digits(|s|)|, |Prefixed(s)|))
    ensures (Prefixed(s) + rest)[|Digits(|s|)|..|Prefixed(s)|] == s
    ensures SkipBytes(Prefixed(s) + rest) == |Prefixed(s)|
  {
    DigitCounts(|s|);
    VarintRoundTrip(|s|, s + rest, 10);
    assert Prefixed(s) + rest == Digits(|s|) + (s + rest);
    assert Low64(|s|) == |s|;
  }

  lemma {:induction false} SkipsDigits(n: nat, rest: seq<byte>)
    ensures SkipVarint(Digits(n) + rest) == |Digits(n)|
  {
    var s := Digits(n) + rest;
    if n >= 128 {
      SkipsDigits(n / 128, rest);
      assert s[1..] == Digits(n / 128) + rest;
    }
  }

  /** An unknown value is skipped as a whole, nested groups included. */
  lemma {:induction false} SkipsWire(number: nat, w: Wire, rest: seq<byte>)
    requires number < TAGS && WireOk(w)
    ensures SkipValue(WireBytes(number, w) + rest, Pair(number, WireTypeOf(w))) == |WireBytes(number, w)| > 0
    decreases w
  {
    var s := WireBytes(number, w) + rest;
    TagReads(number, WireTypeOf(w), []);
    match w
    case AVarint(n) => SkipsDigits(n, rest);
    case ABytes(b) => PrefixReads(b, rest);
    case AGroup(parts) => SkipsParts(number, parts, rest);
    case _ =>
  }

  lemma {:induction false} SkipsPart(p: Part, rest: seq<byte>)
    requires PartOk(p)
    ensures var s := PartBytes(p) + rest;
            var tag := Pair(p.number, WireTypeOf(p.wire));
            var used := |Digits(tag)|;
            && Varint(s, 10) == Good(tag, used) && tag % 8 != TGEND
            && SkipValue(s[used..], tag) == |PartBytes(p)| - used > 0
    decreases p
  {
    TagReads(p.number, WireTypeOf(p.wire), WireBytes(p.number, p.wire) + rest);
    SkipsWire(p.number, p.wire, rest);
    var tag := Digits(Pair(p.number, WireTypeOf(p.wire)));
    var s := PartBytes(p) + rest;
    assert s == tag + (WireBytes(p.number, p.wire) + rest);
    assert s[|tag|..] == WireBytes(p.number, p.wire) + rest;
  }

  lemma {:induction false} SkipsOne(number: nat, tag: u32, used: nat, n: nat, s: seq<byte>)
    requires Varint(s, 10) == Good(tag, used) && tag % 8 != TGEND && used + n <= |s|
    requires SkipValue(s[used..], tag) == n > 0 && SkipGroup(s[used + n..], number) > 0
    ensures SkipGroup(s, number) == used + n + SkipGroup(s[used + n..], number)
  {
    hide Varint, SkipValue, Low32;
    LowSmall(tag);
  }

  lemma {:induction false} SkipsParts(number: nat, parts: seq<Part>, rest: seq<byte>)
    requires number < TAGS && PartsOk(parts)
    ensures var b := PartsBytes(parts) + Digits(Pair(number, TGEND));
            SkipGroup(b + rest, number) == |b|
    decreases parts
  {
    var ending := Digits(Pair(number, TGEND));
    if parts == [] {
      TagReads(number, TGEND, rest);
      assert [] + ending == ending;
    } else {
      var first, others := PartBytes(parts[0]), PartsBytes(parts[1..]) + ending;
      assert PartsBytes(parts) == first + PartsBytes(parts[1..]);
      SkipsPart(parts[0], others + rest);
      hide PartsBytes, PartBytes, Digits, Varint, SkipValue, SkipGroup, Pair;
      SkipsParts(number, parts[1..], rest);
      var s := first + (others + rest);
      assert s[|first|..] == others + rest;
      var tag := Pair(parts[0].number, WireTypeOf(parts[0].wire));
      SkipsOne(number, tag, |Digits(tag)|, |first| - |Digits(tag)|, s);
      Regroup(first, PartsBytes(parts[1..]), ending);
      Regroup(first, others, rest);
    }
  }

  // Scalars.

  lemma {:induction false} Zigzag32(n: int)
    requires -0x8000_0000 <= n < 0x8000_0000
    ensures DecodeSint32(EncodeSint32(n)) == n
  {
    if n < 0 {
      assert Low32(2 * n) == 2 * n + WORD;
      assert EncodeSint32(n) == -2 * n - 1;
    } else {
      assert EncodeSint32(n) == 2 * n;
    }
  }

  lemma {:induction false} Zigzag64(n: int)
    requires -0x8000_0000_0000_0000 <= n < 0x8000_0000_0000_0000
    ensures DecodeSint64(EncodeSint64(n)) == n
  {
    if n < 0 {
      assert Low64(2 * n) == 2 * n + DWORD;
      assert EncodeSint64(n) == -2 * n - 1;
    } else {
      assert EncodeSint64(n) == 2 * n;
    }
  }

  /** An `int32` is written as 64 bits, sign bit repeated, and cut to 32 when read. */
  lemma {:induction false} ExpandedSign(n: int)
    requires -0x8000_0000 <= n < 0x8000_0000
    ensures Signed32(Low32(ExpandSig(Low32(n)))) == n && Signed64(ExpandSig(Low32(n))) == n
  {
    if n < 0 {
      assert Low32(n) == n + WORD;
      assert ExpandSig(Low32(n)) == n + DWORD;
      assert Low32(n + DWORD) == n + WORD;
    } else {
      assert ExpandSig(Low32(n)) == n;
    }
  }

  /** The number a scalar is written as. */
  function Number(k: Kind, v: Value): u64
    requires ScalarOf(k, v) && WireType(k) != TBYTES
  {
    match k
    case Bool => if v.b then 1 else 0
    case Int32 => ExpandSig(Low32(v.n))
    case UInt32 | Fixed32 | SFixed32 => Low32(v.n)
    case SInt32 => EncodeSint32(v.n)
    case SInt64 => EncodeSint64(v.n)
    case Float | Double => v.bits
    case _ => Low64(v.n)
  }

  lemma {:induction false} NumberBack(k: Kind, v: Value)
    requires ScalarOf(k, v) && WireType(k) != TBYTES
    ensures ScalarValue(k, Number(k, v)) == v && (WireType(k) == T32BIT ==> Number(k, v) < WORD)
  {
    LowSmall(Number(k, v));
    if k == Int32 {
      ExpandedSign(v.n);
    } else if k == SInt32 {
      Zigzag32(v.n);
    } else if k == SInt64 {
      Zigzag64(v.n);
    }
  }

  lemma {:induction false} ScalarRoundTrip(schema: Schema, k: Kind, v: Value, rest: seq<byte>)
    requires ScalarOf(k, v) && |ScalarBytes(k, v)| <= MAX_SIZE
    ensures DecodeRaw(schema, k, ScalarBytes(k, v) + rest) == Ok((v, |ScalarBytes(k, v)|))
  {
    var s := ScalarBytes(k, v) + rest;
    if WireType(k) == TBYTES {
      assert ScalarBytes(k, v) == Prefixed(v.s) by {
        assert |v.s| <= |ScalarBytes(k, v)|;
        LowSmall(|v.s|);
      }
      PrefixReads(v.s, rest);
    } else {
      var n := Number(k, v);
      NumberBack(k, v);
      if WireType(k) == TVARINT {
        assert ScalarBytes(k, v) == Digits(n);
        DigitCounts(n);
        VarintRoundTrip(n, rest, 10);
      } else if WireType(k) == T32BIT {
        assert ScalarBytes(k, v) == LittleEndian(n, 4) == s[..4];
        assert TwoFiftySixTo(4) == WORD;
        LittleEndianBack(n, 4);
      } else {
        assert ScalarBytes(k, v) == LittleEndian(n, 8) == s[..8];
        assert TwoFiftySixTo(4) == WORD;
        assert TwoFiftySixTo(8) == DWORD;
        LittleEndianBack(n, 8);
      }
    }
  }

  // Messages.

  /** A value as the decoder returns it: without the fields its schema does not have. */
  function Known(v: Value): Value
    decreases v
  {
    match v
    case Message(fs) => Message(KnownFields(fs))
    case Items(vs) => Items(AllKnown(vs))
    case _ => v
  }

  function AllKnown(vs: seq<Value>): seq<Value>
    decreases vs
  {
    if vs == [] then [] else [Known(vs[0])] + AllKnown(vs[1..])
  }

  function KnownFields(fs: seq<Field>): seq<Field>
    decreases fs
  {
    if fs == [] then [] else KnownField(fs[0]) + KnownFields(fs[1..])
  }

  function KnownField(f: Field): seq<Field>
    decreases f
  {
    match f
    case Entry(number, v) => [Entry(number, Known(v))]
    case Unknown(_, _) => []
  }

  lemma {:induction false} PutNew(acc: seq<Field>, number: nat, v: Value)
    requires !Has(acc, number)
    ensures Put(acc, number, v) == acc + [Entry(number, v)] && ListAt(acc, number) == []
  {
    if acc != [] {
      assert !(acc[0].Entry? && acc[0].number == number);
      forall i | 0 <= i < |acc[1..]| ensures !(acc[1..][i].Entry? && acc[1..][i].number == number) {
        assert acc[1..][i] == acc[i + 1];
      }
      PutNew(acc[1..], number, v);
    }
  }

  lemma {:induction false} PutLast(acc: seq<Field>, number: nat, vs: seq<Value>, v: Value)
    requires !Has(acc, number)
    ensures var l := acc + [Entry(number, Items(vs))];
            Put(l, number, v) == acc + [Entry(number, v)] && ListAt(l, number) == vs
  {
    var l := acc + [Entry(number, Items(vs))];
    if acc != [] {
      assert !(acc[0].Entry? && acc[0].number == number);
      forall i | 0 <= i < |acc[1..]| ensures !(acc[1..][i].Entry? && acc[1..][i].number == number) {
        assert acc[1..][i] == acc[i + 1];
      }
      assert l[1..] == acc[1..] + [Entry(number, Items(vs))];
      PutLast(acc[1..], number, vs, v);
    }
  }

  lemma {:induction false} KnownStep(schema: Schema, t: seq<FieldType>, wire: nat, body: seq<byte>, rest: seq<byte>,
                                     acc: seq<Field>, number: nat, acc': seq<Field>)
    requires number < TAGS && wire < 8 && Lookup(t, number).Some?
    requires DecodeKnown(schema, Lookup(t, number).value, Pair(number, wire), body + rest, acc) == Ok((acc', |body|))
    ensures DecodeFields(schema, t, Digits(Pair(number, wire)) + body + rest, acc) ==
            DecodeFields(schema, t, rest, acc')
  {
    hide Digits, Varint, Lookup, DecodeKnown, Pair;
    var tag := Digits(Pair(number, wire));
    var s := tag + body + rest;
    assert s == tag + (body + rest) && s[|tag|..] == body + rest && s[|tag| + |body|..] == rest;
    TagReads(number, wire, body + rest);
  }

  lemma {:induction false} UnknownStep(schema: Schema, t: seq<FieldType>, number: nat, wire: Wire, rest: seq<byte>,
                                       acc: seq<Field>)
    requires number < TAGS && WireOk(wire) && Lookup(t, number).None?
    ensures DecodeFields(schema, t, Digits(Pair(number, WireTypeOf(wire))) + WireBytes(number, wire) + rest, acc) ==
            DecodeFields(schema, t, rest, acc)
  {
    hide Digits, Varint, Lookup, Pair, SkipValue, WireBytes, WireOk;
    var tag, body := Digits(Pair(number, WireTypeOf(wire))), WireBytes(number, wire);
    var s := tag + body + rest;
    assert s == tag + (body + rest) && s[|tag|..] == body + rest && s[|tag| + |body|..] == rest;
    TagReads(number, WireTypeOf(wire), body + rest);
    SkipsWire(number, wire, rest);
  }

  lemma {:induction false} InnerMessage(schema: Schema, t: nat, s: seq<byte>, rest: seq<byte>, fs: seq<Field>)
    requires t < |schema| && |s| <= MAX_SIZE && DecodeFields(schema, schema[t], s, []) == Ok(fs)
    ensures DecodeRaw(schema, MessageOf(t), Prefixed(s) + rest) == Ok((Message(fs), |Prefixed(s)|))
  {
    hide Digits, Varint, ReadBytes, DecodeFields, Prefixed;
    PrefixReads(s, rest);
  }

  /** One value: a scalar, or a message between its length and what follows. */
  lemma {:induction false} ValueRoundTrip(schema: Schema, k: Kind, v: Value, rest: seq<byte>)
    requires ValidSchema(schema) && Typed(schema, k, v) && |EncodeValue(schema, k, v)| <= MAX_SIZE
    ensures DecodeRaw(schema, k, EncodeValue(schema, k, v) + rest) == Ok((Known(v), |EncodeValue(schema, k, v)|))
    decreases v, 1
  {
    if k.MessageOf? {
      hide Digits, Varint, ReadBytes, DecodeRaw, DecodeFields, EncodeFields, KnownFields, TypedFields;
      var s := EncodeFields(schema, schema[k.t], v.fields);
      FieldsRoundTrip(schema, schema[k.t], v.fields, []);
      assert [] + KnownFields(v.fields) == KnownFields(v.fields);
      InnerMessage(schema, k.t, s, rest, KnownFields(v.fields));
    } else {
      ScalarRoundTrip(schema, k, v, rest);
    }
  }

  lemma {:induction false} PackedRoundTrip(schema: Schema, k: Kind, vs: seq<Value>)
    requires ValidSchema(schema) && AllTyped(schema, k, vs) && |EncodePacked(schema, k, vs)| <= MAX_SIZE
    ensures DecodePacked(schema, k, EncodePacked(schema, k, vs)) == Ok(AllKnown(vs))
    decreases vs, 0
  {
    hide EncodeValue, DecodeRaw, Known, ValidSchema, Typed;
    if vs != [] {
      var first, others := EncodeValue(schema, k, vs[0]), EncodePacked(schema, k, vs[1..]);
      ValueRoundTrip(schema, k, vs[0], others);
      PackedRoundTrip(schema, k, vs[1..]);
      assert (first + others)[|first|..] == others;
    }
  }

  /** A table with the elements of a list read so far; there is no list before the first. */
  function WithList(acc: seq<Field>, number: nat, vs: seq<Value>): seq<Field> {
    if vs == [] then acc else acc + [Entry(number, Items(vs))]
  }

  lemma {:induction false} PutElement(acc: seq<Field>, number: nat, vs: seq<Value>, v: Value)
    requires !Has(acc, number)
    ensures var l := WithList(acc, number, vs);
            Put(l, number, Items(ListAt(l, number) + [v])) == WithList(acc, number, vs + [v])
  {
    hide Put, ListAt, Has;
    if vs == [] {
      PutNew(acc, number, Items([v]));
      assert vs + [v] == [v];
    } else {
      PutLast(acc, number, vs, Items(vs + [v]));
    }
  }

  /** One element of a list not packed, which goes to the end of the list. */
  lemma {:induction false} ElementKnown(schema: Schema, ft: FieldType, v: Value, rest: seq<byte>, acc: seq<Field>,
                                        before: seq<Value>)
    requires ValidSchema(schema) && Typed(schema, ft.kind, v) && |EncodeValue(schema, ft.kind, v)| <= MAX_SIZE
    requires ft.number < TAGS && ft.repeated && !ft.packed && !Has(acc, ft.number)
    ensures var first := EncodeValue(schema, ft.kind, v);
            DecodeKnown(schema, ft, Pair(ft.number, WireType(ft.kind)), first + rest,
                        WithList(acc, ft.number, before)) ==
            Ok((WithList(acc, ft.number, before + [Known(v)]), |first|))
    decreases v, 2
  {
    hide EncodeValue, DecodeRaw, Known, Typed, Pair, Put, ListAt, Has, WithList, WireType;
    ValueRoundTrip(schema, ft.kind, v, rest);
    TagReads(ft.number, WireType(ft.kind), []);
    PutElement(acc, ft.number, before, Known(v));
  }

  /** A list not packed: every element with a tag of its own, appended to the list at the end of the table. */
  lemma {:induction false} TaggedRoundTrip(schema: Schema, t: seq<FieldType>, ft: FieldType, vs: seq<Value>,
                                           rest: seq<byte>,
                                           acc: seq<Field>, before: seq<Value>)
    requires ValidSchema(schema) && AllTyped(schema, ft.kind, vs) && |EncodeTagged(schema, ft, vs)| <= MAX_SIZE
    requires Lookup(t, ft.number) == Some(ft) && ft.number < TAGS && ft.repeated && !ft.packed && !Has(acc, ft.number)
    ensures DecodeFields(schema, t, EncodeTagged(schema, ft, vs) + rest, WithList(acc, ft.number, before)) ==
            DecodeFields(schema, t, rest, WithList(acc, ft.number, before + AllKnown(vs)))
    decreases vs, 0
  {
    if vs == [] {
      NoTagged(schema, ft, vs);
      assert [] + rest == rest && before + [] == before;
    } else {
      var tag, first := Digits(Pair(ft.number, WireType(ft.kind))), EncodeValue(schema, ft.kind, vs[0]);
      var others, known := EncodeTagged(schema, ft, vs[1..]), AllKnown(vs[1..]);
      assert EncodeTagged(schema, ft, vs) == tag + first + others && AllKnown(vs) == [Known(vs[0])] + known;
      hide EncodeTagged, EncodeValue, Digits, DecodeFields, DecodeKnown, Known, AllKnown, Lookup, Typed, Pair, WithList,
           Has;
      hide WireType;
      ElementKnown(schema, ft, vs[0], others + rest, acc, before);
      TagReads(ft.number, WireType(ft.kind), []);
      KnownStep(schema, t, WireType(ft.kind), first, others + rest, WithList(acc, ft.number, before), ft.number,
                WithList(acc, ft.number, before + [Known(vs[0])]));
      TaggedRoundTrip(schema, t, ft, vs[1..], rest, acc, before + [Known(vs[0])]);
      Regroup(tag + first, others, rest);
      Regroup(before, [Known(vs[0])], known);
    }
  }

  lemma {:induction false} NoTagged(schema: Schema, ft: FieldType, vs: seq<Value>)
    requires |vs| == 0
    ensures AllTyped(schema, ft.kind, vs) && EncodeTagged(schema, ft, vs) == [] && AllKnown(vs) == []
  {
  }

  lemma {:induction false} FieldRoundTrip(schema: Schema, t: seq<FieldType>, f: Field, rest: seq<byte>, acc: seq<Field>)
    requires ValidSchema(schema) && t in schema && TypedField(schema, t, f) && |EncodeField(schema, t, f)| <= MAX_SIZE
    requires f.Entry? ==> !Has(acc, f.number)
    ensures DecodeFields(schema, t, EncodeField(schema, t, f) + rest, acc) ==
            DecodeFields(schema, t, rest, acc + KnownField(f))
    decreases f
  {
    match f
    case Unknown(number, wire) =>
      UnknownStep(schema, t, number, wire, rest, acc);
      assert acc + KnownField(f) == acc;
    case Entry(number, v) =>
      var ft := Lookup(t, number).value;
      SchemaField(schema, t, ft);
      if !ft.repeated {
        SingleRoundTrip(schema, t, ft, v, rest, acc);
      } else if ft.packed {
        PackedFieldRoundTrip(schema, t, ft, v.vs, rest, acc);
      } else {
        TaggedRoundTrip(schema, t, ft, v.vs, rest, acc, []);
        assert [] + AllKnown(v.vs) == AllKnown(v.vs) != [];
      }
  }

  lemma {:induction false} SchemaField(schema: Schema, t: seq<FieldType>, ft: FieldType)
    requires ValidSchema(schema) && t in schema && ft in t
    ensures ft.number < TAGS
  {
    var i :| 0 <= i < |schema| && schema[i] == t;
    assert ft in schema[i];
  }

  lemma {:induction false} SingleRoundTrip(schema: Schema, t: seq<FieldType>, ft: FieldType, v: Value, rest: seq<byte>,
                                           acc: seq<Field>)
    requires ValidSchema(schema) && Typed(schema, ft.kind, v) && |EncodeValue(schema, ft.kind, v)| <= MAX_SIZE
    requires Lookup(t, ft.number) == Some(ft) && ft.number < TAGS && !ft.repeated && !Has(acc, ft.number)
    ensures DecodeFields(schema, t, Digits(Pair(ft.number, WireType(ft.kind))) + EncodeValue(schema, ft.kind, v) + rest,
                         acc) ==
            DecodeFields(schema, t, rest, acc + [Entry(ft.number, Known(v))])
    decreases v, 2
  {
    hide EncodeValue, Digits, DecodeFields, DecodeRaw, Known, Lookup, Typed, Pair;
    ValueRoundTrip(schema, ft.kind, v, rest);
    PutNew(acc, ft.number, Known(v));
    TagReads(ft.number, WireType(ft.kind), []);
    KnownStep(schema, t, WireType(ft.kind), EncodeValue(schema, ft.kind, v), rest, acc, ft.number,
              acc + [Entry(ft.number, Known(v))]);
  }

  lemma {:induction false} PackedFieldRoundTrip(schema: Schema, t: seq<FieldType>, ft: FieldType, vs: seq<Value>,
                                                rest: seq<byte>, acc: seq<Field>)
    requires ValidSchema(schema) && AllTyped(schema, ft.kind, vs) && |EncodePacked(schema, ft.kind, vs)| <= MAX_SIZE
    requires Lookup(t, ft.number) == Some(ft) && ft.number < TAGS && ft.repeated && ft.packed && !Has(acc, ft.number)
    ensures DecodeFields(schema, t,
                         Digits(Pair(ft.number, TBYTES)) + Prefixed(EncodePacked(schema, ft.kind, vs)) + rest, acc) ==
            DecodeFields(schema, t, rest, acc + [Entry(ft.number, Items(AllKnown(vs)))])
    decreases vs, 1
  {
    hide EncodePacked, Digits, DecodeFields, DecodePacked, AllKnown, Lookup, AllTyped, Pair, ReadBytes, Prefixed;
    var list := EncodePacked(schema, ft.kind, vs);
    PrefixReads(list, rest);
    PackedRoundTrip(schema, ft.kind, vs);
    PutNew(acc, ft.number, Items(AllKnown(vs)));
    assert [] + AllKnown(vs) == AllKnown(vs);
    TagReads(ft.number, TBYTES, []);
    KnownStep(schema, t, TBYTES, Prefixed(list), rest, acc, ft.number, acc + [Entry(ft.number, Items(AllKnown(vs)))]);
  }

  /** The table with the first field set still has none of the others. */
  lemma {:induction false} FirstIsNew(fs: seq<Field>, acc: seq<Field>)
    requires |fs| > 0 && (fs[0].Entry? ==> !Has(fs[1..], fs[0].number))
    requires forall f :: f in fs && f.Entry? ==> !Has(acc, f.number)
    ensures forall f :: f in fs[1..] && f.Entry? ==> !Has(acc + KnownField(fs[0]), f.number)
  {
    var acc' := acc + KnownField(fs[0]);
    forall f | f in fs[1..] && f.Entry? ensures !Has(acc', f.number) {
      var i :| 0 <= i < |fs[1..]| && fs[1..][i] == f;
      assert f in fs;
      assert fs[0].Entry? ==> fs[1..][i].number != fs[0].number;
      forall j | 0 <= j < |acc'| ensures !(acc'[j].Entry? && acc'[j].number == f.number) {
        if j < |acc| {
          assert acc'[j] == acc[j];
        }
      }
    }
  }

  lemma {:induction false} FieldsRoundTrip(schema: Schema, t: seq<FieldType>, fs: seq<Field>, acc: seq<Field>)
    requires ValidSchema(schema) && t in schema && TypedFields(schema, t, fs) &&
             |EncodeFields(schema, t, fs)| <= MAX_SIZE
    requires forall f :: f in fs && f.Entry? ==> !Has(acc, f.number)
    ensures DecodeFields(schema, t, EncodeFields(schema, t, fs), acc) == Ok(acc + KnownFields(fs))
    decreases fs, 0
  {
    if fs == [] {
      assert acc + KnownFields(fs) == acc;
    } else {
      var others, known := EncodeFields(schema, t, fs[1..]), KnownFields(fs[1..]);
      assert EncodeFields(schema, t, fs) == EncodeField(schema, t, fs[0]) + others;
      assert KnownFields(fs) == KnownField(fs[0]) + known;
      hide EncodeFields, EncodeField, DecodeFields, KnownFields, TypedField, Has, KnownField, ValidSchema;
      FirstIsNew(fs, acc);
      assert fs[0] in fs;
      FieldRoundTrip(schema, t, fs[0], others, acc);
      FieldsRoundTrip(schema, t, fs[1..], acc + KnownField(fs[0]));
      Regroup(acc, KnownField(fs[0]), known);
    }
  }

  /** A message that is read by the schema it was written with comes back the same, and one with fields added that the
      schema does not have, at any depth, comes back without them. */
  lemma {:induction false} MessageRoundTrip(schema: Schema, t: nat, fs: seq<Field>)
    requires ValidSchema(schema) && t < |schema| && TypedFields(schema, schema[t], fs)
    requires |EncodeFields(schema, schema[t], fs)| <= MAX_SIZE
    ensures DecodeFields(schema, schema[t], EncodeFields(schema, schema[t], fs), []) == Ok(KnownFields(fs))
    ensures Plain(fs) ==> KnownFields(fs) == fs
  {
    FieldsRoundTrip(schema, schema[t], fs, []);
    assert [] + KnownFields(fs) == KnownFields(fs);
    if Plain(fs) {
      PlainKnown(fs);
    }
  }

  /** A table of Lua: there are entries only. */
  predicate Plain(fs: seq<Field>)
    decreases fs
  {
    fs == [] || (PlainField(fs[0]) && Plain(fs[1..]))
  }

  predicate PlainField(f: Field)
    decreases f
  {
    f.Entry? && PlainValue(f.value)
  }

  predicate PlainValue(v: Value)
    decreases v
  {
    match v
    case Message(fs) => Plain(fs)
    case Items(vs) => AllPlain(vs)
    case _ => true
  }

  predicate AllPlain(vs: seq<Value>)
    decreases vs
  {
    vs == [] || (PlainValue(vs[0]) && AllPlain(vs[1..]))
  }

  lemma {:induction false} PlainKnown(fs: seq<Field>)
    requires Plain(fs)
    ensures KnownFields(fs) == fs
    decreases fs
  {
    if fs != [] {
      PlainFieldKnown(fs[0]);
      PlainKnown(fs[1..]);
    }
  }

  lemma {:induction false} PlainFieldKnown(f: Field)
    requires PlainField(f)
    ensures KnownField(f) == [f]
    decreases f
  {
    PlainValueKnown(f.value);
  }

  lemma {:induction false} PlainValueKnown(v: Value)
    requires PlainValue(v)
    ensures Known(v) == v
    decreases v
  {
    match v
    case Message(fs) => PlainKnown(fs);
    case Items(vs) => AllPlainKnown(vs);
    case _ =>
  }

  lemma {:induction false} AllPlainKnown(vs: seq<Value>)
    requires AllPlain(vs)
    ensures AllKnown(vs) == vs
    decreases vs
  {
    if vs != [] {
      PlainValueKnown(vs[0]);
      AllPlainKnown(vs[1..]);
    }
  }
}
