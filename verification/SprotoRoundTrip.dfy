/** Decoding what `sproto_encode` wrote calls back the fields of the record, all of them and nothing else. */
module SprotoRoundTrip {
  import opened Basics
  import opened SprotoSpec

  lemma {:induction false} WordBack(n: nat)
    requires n < 0x1_0000
    ensures FromLittleEndian(WordBytes(n)) == n
  {
    assert TwoFiftySixTo(2) == 0x1_0000;
    LittleEndianBack(n, 2);
  }

  lemma {:induction false} FourBack(n: nat)
    requires n < WORD
    ensures FromLittleEndian(LittleEndian(n, 4)) == n
  {
    assert TwoFiftySixTo(2) == 0x1_0000;
    assert TwoFiftySixTo(4) == WORD;
    LittleEndianBack(n, 4);
  }

  lemma {:induction false} EightBack(n: nat)
    requires n < DWORD
    ensures FromLittleEndian(LittleEndian(n, 8)) == n
  {
    assert TwoFiftySixTo(2) == 0x1_0000;
    assert TwoFiftySixTo(4) == WORD;
    assert TwoFiftySixTo(6) == 0x1_0000_0000_0000;
    LittleEndianBack(n, 8);
  }

  lemma {:induction false} NarrowBack(n: int)
    requires Fits32(n)
    ensures Signed32(Low32(n)) == n && Expand(Low32(n)) == Low64(n)
  {
    if n < 0 {
      assert Low32(n) == n + WORD;
    }
  }

  lemma {:induction false} WideBack(n: int)
    requires -0x8000_0000_0000_0000 <= n < 0x8000_0000_0000_0000
    ensures Signed64(Low64(n)) == n
  {
    if n < 0 {
      assert Low64(n) == n + DWORD;
    }
  }

  /** A number comes back from either width it is written in, sign included. */
  lemma {:induction false} NumberBack(k: Kind, v: Value, width: nat)
    requires k.Integer? || k.Double?
    requires width == 8 || (width == 4 && k.Integer?)
    requires Typed([], k, v) && (width == 4 ==> Fits32(v.n))
    ensures ReadNumber(k, NumberBytes(v, width), width) == v
  {
    if k.Integer? {
      WideBack(v.n);
      LowSmall(Low64(v.n));
      LowSmall(Low32(v.n));
      if width == 4 {
        NarrowBack(v.n);
        FourBack(Low32(v.n));
      } else {
        EightBack(Low64(v.n));
      }
    } else {
      LowSmall(v.bits);
      EightBack(v.bits);
    }
  }

  lemma {:induction false} NumbersBack(schema: Schema, k: Kind, vs: seq<Value>, width: nat)
    requires (k.Integer? || k.Double?) && (width == 8 || (width == 4 && k.Integer?))
    requires AllTyped(schema, k, vs) && (width == 4 ==> AllFit32(vs))
    ensures ReadNumbers(k, Numbers(vs, width), width) == vs && |Numbers(vs, width)| == |vs| * width
    decreases vs
  {
    if vs != [] {
      var first, others := NumberBytes(vs[0], width), Numbers(vs[1..], width);
      NumberBack(k, vs[0], width);
      NumbersBack(schema, k, vs[1..], width);
      assert (first + others)[..width] == first && (first + others)[width..] == others;
    }
  }

  lemma {:induction false} FlagsBack(schema: Schema, vs: seq<Value>)
    requires AllTyped(schema, Boolean, vs)
    ensures ReadFlags(Flags(vs)) == vs
    decreases vs
  {
    if vs != [] {
      FlagsBack(schema, vs[1..]);
      assert Flags(vs)[1..] == Flags(vs[1..]);
    }
  }

  lemma {:induction false} SizedReads(s: seq<byte>, rest: seq<byte>)
    requires |s| < WORD
    ensures var d := Sized(s) + rest;
            |d| >= 4 && FromLittleEndian(d[..4]) == |s| && d[4..4 + |s|] == s && d[4 + |s|..] == rest
  {
    var d := Sized(s) + rest;
    assert d[..4] == LittleEndian(|s|, 4);
    FourBack(|s|);
  }

  lemma {:induction false} BodyBack(schema: Schema, k: Kind, v: Value)
    requires ValidSchema(schema) && Typed(schema, k, v) && (k.Text? || k.Struct?) && |Body(schema, k, v)| < WORD
    ensures ReadBody(schema, k, Body(schema, k, v)) == Done(v)
    decreases v, 3
  {
    if k.Struct? {
      RecordBack(schema, schema[k.t], v.es, []);
      assert EncodeRecord(schema, schema[k.t], v.es) + [] == EncodeRecord(schema, schema[k.t], v.es);
    }
  }

  lemma {:induction false} BodiesBack(schema: Schema, k: Kind, vs: seq<Value>)
    requires ValidSchema(schema) && AllTyped(schema, k, vs) && (k.Text? || k.Struct?) && |Bodies(schema, k, vs)| < WORD
    ensures ReadBodies(schema, k, Bodies(schema, k, vs)) == Done(vs)
    ensures vs != [] ==> Bodies(schema, k, vs) != []
    decreases vs, 0
  {
    hide Body, ReadBody, Typed, Sized, ValidSchema;
    if vs != [] {
      hide Bodies, ReadBodies;
      BodiesFirst(schema, k, vs);
      BodyBack(schema, k, vs[0]);
      BodiesBack(schema, k, vs[1..]);
      BodyRead(schema, k, Body(schema, k, vs[0]), Bodies(schema, k, vs[1..]), vs[0], vs[1..]);
      assert [vs[0]] + vs[1..] == vs;
    }
  }

  lemma {:induction false} BodiesFirst(schema: Schema, k: Kind, vs: seq<Value>)
    requires AllTyped(schema, k, vs) && (k.Text? || k.Struct?) && vs != []
    ensures Typed(schema, k, vs[0]) && AllTyped(schema, k, vs[1..])
    ensures Bodies(schema, k, vs) == Sized(Body(schema, k, vs[0])) + Bodies(schema, k, vs[1..])
    ensures |Bodies(schema, k, vs)| == 4 + |Body(schema, k, vs[0])| + |Bodies(schema, k, vs[1..])|
  {
    hide Body, Typed;
  }

  lemma {:induction false} BodyRead(schema: Schema, k: Kind, body: seq<byte>, others: seq<byte>, v: Value,
                                     vs: seq<Value>)
    requires (k.Text? || k.Struct?) && |body| < WORD
    requires ReadBody(schema, k, body) == Done(v) && ReadBodies(schema, k, others) == Done(vs)
    ensures ReadBodies(schema, k, Sized(body) + others) == Done([v] + vs)
  {
    hide ReadBody, FromLittleEndian, LittleEndian;
    SizedReads(body, others);
  }

  lemma {:induction false} ArrayBack(schema: Schema, k: Kind, vs: seq<Value>)
    requires ValidSchema(schema) && AllTyped(schema, k, vs) && |Elements(schema, k, vs)| < WORD
    ensures ReadArray(schema, k, Elements(schema, k, vs)) == Done(Some(vs))
    decreases vs, 1
  {
    var s := Elements(schema, k, vs);
    if k.Integer? || k.Double? {
      if vs != [] {
        var width := Width(k, vs);
        NumbersBack(schema, k, vs, width);
        assert s[1..] == Numbers(vs, width);
        assert |s| - 1 == |vs| * width && |vs| * width > 0 && (|vs| * width) % width == 0 by { Whole(|vs|, width); }
      }
    } else if k.Boolean? {
      FlagsBack(schema, vs);
    } else {
      BodiesBack(schema, k, vs);
    }
  }

  lemma {:induction false} Whole(n: nat, width: nat)
    requires n > 0 && (width == 4 || width == 8)
    ensures n * width > 0 && (n * width) % width == 0
  {
    if width == 4 {
      assert (n * 4) % 4 == 0;
    } else {
      assert (n * 8) % 8 == 0;
    }
  }

  /** One field: from its word, or from its data. */
  lemma {:induction false} FieldBack(schema: Schema, f: Field, v: Value)
    requires ValidSchema(schema)
    requires if f.isArray then v.List? && AllTyped(schema, f.kind, v.vs) else Typed(schema, f.kind, v)
    requires Code(schema, f, v).Data? ==> |Code(schema, f, v).bytes| < WORD
    ensures match Code(schema, f, v)
            case Inline(w) => ReadInline(f, w / 2 - 1) == Done(Some(v))
            case Data(bytes) => exists s :: bytes == Sized(s) && |s| < WORD && ReadData(schema, f, s) == Done(Some(v))
    decreases v, 4
  {
    if f.isArray {
      ArrayBack(schema, f.kind, v.vs);
      assert ReadData(schema, f, Elements(schema, f.kind, v.vs)) == Done(Some(v));
    } else if f.kind == Integer {
      var width := if Fits32(v.n) then 4 else 8;
      NumberBack(Integer, v, width);
      assert ReadData(schema, f, NumberBytes(v, width)) == Done(Some(v));
    } else if f.kind == Double {
      NumberBack(Double, v, 8);
      assert ReadData(schema, f, NumberBytes(v, 8)) == Done(Some(v));
    } else if f.kind != Boolean {
      BodyBack(schema, f.kind, v);
      assert ReadData(schema, f, Body(schema, f.kind, v)) == Done(Some(v));
    }
  }

  /** The words of the header never outnumber the tags they stand for. */
  lemma {:induction false} WordCount(schema: Schema, t: seq<Field>, es: seq<Entry>, last: int)
    requires ValidSchema(schema) && t in schema && TypedEntries(schema, t, es) && -1 <= last < TAGS
    requires es != [] ==> last < es[0].tag
    ensures |Words(schema, t, es, last)| <= 2 * (TAGS - 1 - last)
    decreases es
  {
    if es != [] {
      TagBound(schema, t, es[0]);
      WordCount(schema, t, es[1..], es[0].tag);
    }
  }

  lemma {:induction false} TagBound(schema: Schema, t: seq<Field>, e: Entry)
    requires ValidSchema(schema) && t in schema && TypedEntry(schema, t, e)
    ensures e.tag < TAGS && Lookup(t, e.tag).Some?
  {
    var f := Lookup(t, e.tag).value;
    assert ValidType(schema, t);
    var i :| 0 <= i < |t| && t[i] == f;
  }

  lemma {:induction false} WordFirst(value: nat, words: seq<byte>)
    ensures var s := WordBytes(value) + words; s[..2] == WordBytes(value) && s[2..] == words && |s| == 2 + |words|
  {
    hide LittleEndian;
  }

  /** A word for skipped tags is read as what it was written for. */
  lemma {:induction false} GapBack(schema: Schema, t: seq<Field>, last: int, tag: nat, words: seq<byte>,
                                   data: seq<byte>)
    requires -1 <= last < tag < TAGS && |words| % 2 == 0
    ensures |Gap(last, tag)| % 2 == 0
    ensures DecodeWords(schema, t, Gap(last, tag) + words, last, data) == DecodeWords(schema, t, words, tag - 1, data)
  {
    hide WordBytes, FromLittleEndian, Lookup, Called, ReadInline, ReadData;
    var s := Gap(last, tag) + words;
    if tag - last > 1 {
      var value := 2 * (tag - last - 2) + 1;
      WordBack(value);
      WordFirst(value, words);
    } else {
      assert s == words;
    }
  }

  /** The data of a field, its length in front. */
  lemma {:induction false} DataBack(schema: Schema, f: Field, b: seq<byte>, v: Value, rest: seq<byte>)
    requires |Sized(b)| < WORD && ReadData(schema, f, b) == Done(Some(v))
    ensures var d := Sized(b) + rest;
            && |d| >= 4 && |d| >= Step(d[..4]) && d[Step(d[..4])..] == rest
            && FieldRead(schema, Some(f), d) == Done(Some(v))
  {
    hide ReadData, FromLittleEndian, LittleEndian;
    SizedReads(b, rest);
    LowSmall(|b| + 4);
  }

  /** The word of a field, and its data, are read as what they were written for. */
  lemma {:induction false} EntryBack(schema: Schema, t: seq<Field>, e: Entry, words: seq<byte>, data: seq<byte>)
    requires ValidSchema(schema) && TypedEntry(schema, t, e) && |words| % 2 == 0
    requires CodeOf(schema, t, e).Data? ==> |CodeOf(schema, t, e).bytes| < WORD
    ensures var c := CodeOf(schema, t, e);
            var word, d := WordBytes(if c.Inline? then c.word else 0), (if c.Data? then c.bytes else []) + data;
            DecodeWords(schema, t, word + words, e.tag - 1, d) ==
            Called(Lookup(t, e.tag), Done(Some(e.value)), DecodeWords(schema, t, words, e.tag, data))
    decreases e, 1
  {
    var c, f := CodeOf(schema, t, e), Lookup(t, e.tag).value;
    FieldBack(schema, f, e.value);
    hide Code, Lookup, Typed, AllTyped, ReadData, Called, FromLittleEndian, WordBytes, FieldRead, Step, Sized;
    var value := if c.Inline? then c.word else 0;
    WordBack(value);
    WordFirst(value, words);
    if c.Data? {
      var b :| c.bytes == Sized(b) && |b| < WORD && ReadData(schema, f, b) == Done(Some(e.value));
      DataBack(schema, f, b, e.value, data);
    } else {
      assert [] + data == data;
    }
  }

  /** What is written for the first field of a record, and what for the others. */
  lemma {:induction false} FirstOf(schema: Schema, t: seq<Field>, es: seq<Entry>, last: int)
    requires TypedEntries(schema, t, es) && (es != [] ==> last < es[0].tag)
    ensures es == [] ==> Words(schema, t, es, last) == [] && Datas(schema, t, es) == []
    ensures es != [] ==>
              var e, others := es[0], es[1..];
              && TypedEntry(schema, t, e) && Lookup(t, e.tag).Some? && TypedEntries(schema, t, others)
              && (others != [] ==> e.tag < others[0].tag)
              && var c := CodeOf(schema, t, e);
                 && Words(schema, t, es, last) ==
                    Gap(last, e.tag) + WordBytes(if c.Inline? then c.word else 0) + Words(schema, t, others, e.tag)
                 && Datas(schema, t, es) == (if c.Data? then c.bytes else []) + Datas(schema, t, others)
  {
    hide Typed, AllTyped, Code, LittleEndian;
  }

  lemma {:induction false} EntriesBack(schema: Schema, t: seq<Field>, es: seq<Entry>, last: int, rest: seq<byte>)
    requires ValidSchema(schema) && t in schema && TypedEntries(schema, t, es) && -1 <= last < TAGS
    requires (es != [] ==> last < es[0].tag) && |Datas(schema, t, es)| < WORD
    ensures DecodeWords(schema, t, Words(schema, t, es, last), last, Datas(schema, t, es) + rest) == Done((es, rest))
    decreases es, 0
  {
    FirstOf(schema, t, es, last);
    if es == [] {
      assert [] + rest == rest;
    } else {
      var e, c := es[0], CodeOf(schema, t, es[0]);
      var words, datas := Words(schema, t, es[1..], e.tag), Datas(schema, t, es[1..]);
      var word, d := WordBytes(if c.Inline? then c.word else 0), if c.Data? then c.bytes else [];
      hide Words, Datas, Gap, DecodeWords, CodeOf, TypedEntry, TypedEntries, Lookup, WordBytes, Called;
      EntriesBack(schema, t, es[1..], e.tag, rest);
      FirstEntry(schema, t, e, last, words, datas + rest, es[1..], rest);
      Regroup(Gap(last, e.tag), word, words);
      Regroup(d, datas, rest);
      assert [e] + es[1..] == es;
    }
  }

  lemma {:induction false} FirstEntry(schema: Schema, t: seq<Field>, e: Entry, last: int, words: seq<byte>,
                                      data: seq<byte>,
                                      es: seq<Entry>, rest: seq<byte>)
    requires ValidSchema(schema) && t in schema && TypedEntry(schema, t, e) && |words| % 2 == 0 && -1 <= last < e.tag
    requires CodeOf(schema, t, e).Data? ==> |CodeOf(schema, t, e).bytes| < WORD
    requires DecodeWords(schema, t, words, e.tag, data) == Done((es, rest))
    ensures var c := CodeOf(schema, t, e);
            var word, d := WordBytes(if c.Inline? then c.word else 0), if c.Data? then c.bytes else [];
            |Gap(last, e.tag)| % 2 == 0 &&
            DecodeWords(schema, t, Gap(last, e.tag) + (word + words), last, d + data) == Done(([e] + es, rest))
    decreases e, 2
  {
    hide Gap, DecodeWords, CodeOf, TypedEntry, Lookup, Called, WordBytes, ValidSchema;
    TagBound(schema, t, e);
    var c := CodeOf(schema, t, e);
    var word, d := WordBytes(if c.Inline? then c.word else 0), if c.Data? then c.bytes else [];
    GapBack(schema, t, last, e.tag, word + words, d + data);
    EntryBack(schema, t, e, words, data);
    CalledFirst(t, e, es, rest);
  }

  lemma {:induction false} CalledFirst(t: seq<Field>, e: Entry, es: seq<Entry>, rest: seq<byte>)
    requires Lookup(t, e.tag).Some?
    ensures Called(Lookup(t, e.tag), Done(Some(e.value)), Done((es, rest))) == Done(([e] + es, rest))
  {
  }

  /** Decoding an encoded record calls back exactly its fields, in the order of their tags, and reads exactly its bytes,
      whatever comes after them. */
  lemma {:induction false} RecordBack(schema: Schema, t: seq<Field>, es: seq<Entry>, rest: seq<byte>)
    requires ValidSchema(schema) && t in schema && TypedEntries(schema, t, es) && |EncodeRecord(schema, t, es)| < WORD
    ensures var s := EncodeRecord(schema, t, es); DecodeRecord(schema, t, s + rest) == Done((es, |s|))
    decreases es, 2
  {
    hide Words, Datas, DecodeWords, TypedEntries, DecodeRecord, WordBytes, ValidSchema;
    var words, datas := Words(schema, t, es, -1), Datas(schema, t, es);
    WordsEven(schema, t, es);
    WordCount(schema, t, es, -1);
    EntriesBack(schema, t, es, -1, rest);
    HeaderBack(schema, t, words, datas + rest, es, rest);
    Regroup(WordBytes(|words| / 2) + words, datas, rest);
  }

  lemma {:induction false} WordsEven(schema: Schema, t: seq<Field>, es: seq<Entry>)
    requires TypedEntries(schema, t, es)
    ensures |Words(schema, t, es, -1)| % 2 == 0
  {
  }

  lemma {:induction false} HeaderBack(schema: Schema, t: seq<Field>, words: seq<byte>, data: seq<byte>, es: seq<Entry>,
                                      rest: seq<byte>)
    requires |words| % 2 == 0 && |words| < 0x1_0000 && DecodeWords(schema, t, words, -1, data) == Done((es, rest))
    ensures var s := WordBytes(|words| / 2) + words + data;
            DecodeRecord(schema, t, s) == Done((es, 2 + |words| + |data| - |rest|))
  {
    hide DecodeWords;
    var n := WordBytes(|words| / 2);
    WordBack(|words| / 2);
    var s := n + words + data;
    assert s[..2] == n && s[2..2 + |words|] == words && s[2 + |words|..] == data;
  }
}
