/** Lengths so large that adding 4 wraps around in 32 bits: what `sproto_decode` makes of them, and exactly when it
    leaves its data. */
module SprotoWrap {
  import opened Basics
  import opened SprotoSpec
  import opened SprotoRoundTrip

  /** One field with data of its own, whose length is 2^32 - 4. */
  const WRAPPING: seq<byte> := [1, 0, 0, 0, 0xFC, 0xFF, 0xFF, 0xFF]

  lemma {:induction false} WrappingWords()
    ensures FromLittleEndian(WRAPPING[..2]) == 1 && FromLittleEndian(WRAPPING[2..4]) == 0
    ensures |WRAPPING| == 8 && FromLittleEndian(WRAPPING[4..]) == WORD - 4 && Step(WRAPPING[4..]) == 0
  {
    hide FromLittleEndian;
    TwoBytes(WRAPPING[..2]);
    TwoBytes(WRAPPING[2..4]);
    FourBytes(WRAPPING[4..]);
  }

  lemma {:induction false} TwoBytes(s: seq<byte>)
    requires |s| == 2
    ensures FromLittleEndian(s) == (s[0] as int) + 256 * (s[1] as int)
  {
    assert FromLittleEndian(s[1..]) == s[1] + 256 * FromLittleEndian(s[1..][1..]);
    assert FromLittleEndian(s[1..][1..]) == 0;
  }

  lemma {:induction false} FourBytes(s: seq<byte>)
    requires |s| == 4
    ensures FromLittleEndian(s) ==
            (s[0] as int) + 256 * (s[1] as int) + 0x1_0000 * (s[2] as int) + 0x100_0000 * (s[3] as int)
  {
    assert FromLittleEndian(s) == s[0] + 256 * FromLittleEndian(s[1..]);
    assert FromLittleEndian(s[1..]) == s[1] + 256 * FromLittleEndian(s[1..][1..]);
    TwoBytes(s[1..][1..]);
  }

  lemma {:induction false} WrappingDecodes(schema: Schema, t: seq<Field>)
    ensures |WRAPPING| == 8 && Step(WRAPPING[4..][..4]) == 0
    ensures DecodeRecord(schema, t, WRAPPING) ==
            match Called(Lookup(t, 0), FieldRead(schema, Lookup(t, 0), WRAPPING[4..]), Done(([], WRAPPING[4..])))
            case Refused => Refused
            case Outside => Outside
            case Done((es, rest)) => Done((es, 4))
  {
    hide FromLittleEndian, Lookup, FieldRead, Called, Step;
    WrappingWords();
    var words, data := WRAPPING[2..4], WRAPPING[4..];
    assert words[..2] == words && words[2..] == [] && data[..4] == data && data[0..] == data;
    assert WRAPPING[4..][0..] == WRAPPING[4..] && |WRAPPING| - 4 == 4;
    assert DecodeWords(schema, t, words[2..], 0, data[0..]) == Done(([], data));
  }

  /** The record is read to the end of its length when its type has no field with tag 0. */
  lemma {:induction false} WrapPasses(schema: Schema, t: seq<Field>)
    requires Lookup(t, 0) == None
    ensures DecodeRecord(schema, t, WRAPPING) == Done(([], 4))
  {
    hide FromLittleEndian, DecodeRecord, Step;
    WrappingWords();
    WrappingDecodes(schema, t);
    var none: seq<Entry> := [];
    assert none + none == none;
  }

  /** When that field is a text, its callback gets bytes far beyond the data. */
  lemma {:induction false} WrapLeaves(schema: Schema, t: seq<Field>)
    requires Lookup(t, 0) == Some(Field(0, Text, false))
    ensures DecodeRecord(schema, t, WRAPPING) == Outside
  {
    hide FromLittleEndian, DecodeRecord, Step;
    WrappingWords();
    WrappingDecodes(schema, t);
    assert WRAPPING[4..][..4] == WRAPPING[4..];
  }

  // ----- exactly when decoding leaves its data -----

  /** A length that wraps, in front of `s`, for a field whose bytes are read or handed on without another test. */
  predicate Unguarded(f: Field, sz: nat, s: seq<byte>) {
    match f.kind
    case Text => !f.isArray
    case Boolean => f.isArray
    case Integer | Double => f.isArray && (s == [] || ((s[0] == 4 || s[0] == 8) && (sz - 1) % s[0] == 0))
    case Struct(_) => false
  }

  /** The data of a field holds such a length: its own, or one in a record inside it. */
  predicate FieldHits(schema: Schema, f: Field, data: seq<byte>)
    requires |data| >= 4 && |data| >= Step(data[..4])
    decreases |data|, 0
  {
    var sz := FromLittleEndian(data[..4]);
    if sz + 4 >= WORD then Unguarded(f, sz, data[4..])
    else
      && f.kind.Struct? && f.kind.t < |schema|
      && if f.isArray then BodiesHit(schema, f.kind, data[4..4 + sz])
         else RecordHits(schema, schema[f.kind.t], data[4..4 + sz])
  }

  /** One record of an array does, and none before it is refused. */
  predicate BodiesHit(schema: Schema, k: Kind, s: seq<byte>)
    requires k.Struct? && k.t < |schema|
    decreases |s|, 4
  {
    && |s| >= 4
    && var sz := FromLittleEndian(s[..4]);
       && sz <= |s| - 4
       && (|| RecordHits(schema, schema[k.t], s[4..4 + sz])
           || (!ReadBody(schema, k, s[4..4 + sz]).Refused? && BodiesHit(schema, k, s[4 + sz..])))
  }

  /** One field does, and none before it is refused: `words` and `data` are what is left of the record. */
  predicate WordsHit(schema: Schema, t: seq<Field>, words: seq<byte>, tag: int, data: seq<byte>)
    requires |words| % 2 == 0
    decreases |words| + |data|, |words|
  {
    && words != []
    && var value, f := FromLittleEndian(words[..2]), Lookup(t, tag + 1);
       if value % 2 == 1 then WordsHit(schema, t, words[2..], tag + 1 + value / 2, data)
       else if value > 0 then
         && (f.Some? ==> !f.value.isArray && (f.value.kind.Integer? || f.value.kind.Boolean?))
         && WordsHit(schema, t, words[2..], tag + 1, data)
       else
         && |data| >= 4 && |data| >= Step(data[..4])
         && (|| (f.Some? && FieldHits(schema, f.value, data))
             || (!FieldRead(schema, f, data).Refused? &&
                   WordsHit(schema, t, words[2..], tag + 1, data[Step(data[..4])..])))
  }

  predicate RecordHits(schema: Schema, t: seq<Field>, s: seq<byte>)
    decreases |s|, 3
  {
    && |s| >= 2 && |s| - 2 >= 2 * FromLittleEndian(s[..2])
    && var end := 2 + 2 * FromLittleEndian(s[..2]);
       WordsHit(schema, t, s[2..end], -1, s[end..])
  }

  lemma {:induction false} BodyLeaves(schema: Schema, k: Kind, s: seq<byte>)
    requires k.Text? || k.Struct?
    ensures ReadBody(schema, k, s).Outside? <==> k.Struct? && k.t < |schema| && RecordHits(schema, schema[k.t], s)
    decreases |s|, 4
  {
    hide DecodeRecord, RecordHits;
    if k.Struct? && k.t < |schema| {
      RecordLeaves(schema, schema[k.t], s);
    }
  }

  lemma {:induction false} BodiesLeave(schema: Schema, k: Kind, s: seq<byte>)
    requires k.Text? || k.Struct?
    ensures ReadBodies(schema, k, s).Outside? <==> k.Struct? && k.t < |schema| && BodiesHit(schema, k, s)
    decreases |s|, 5
  {
    hide ReadBody, RecordHits, FromLittleEndian;
    if |s| >= 4 && FromLittleEndian(s[..4]) <= |s| - 4 {
      var sz := FromLittleEndian(s[..4]);
      BodyLeaves(schema, k, s[4..4 + sz]);
      BodiesLeave(schema, k, s[4 + sz..]);
      NoSuchType(schema, k, s[4..4 + sz]);
    }
  }

  /** A record of a type that is not there is refused. */
  lemma {:induction false} NoSuchType(schema: Schema, k: Kind, s: seq<byte>)
    ensures k.Struct? && k.t >= |schema| ==> ReadBody(schema, k, s) == Refused
  {
  }

  lemma {:induction false} DataLeaves(schema: Schema, f: Field, s: seq<byte>)
    ensures ReadData(schema, f, s).Outside? <==>
      && f.kind.Struct? && f.kind.t < |schema|
      && if f.isArray then BodiesHit(schema, f.kind, s) else RecordHits(schema, schema[f.kind.t], s)
    decreases |s|, 6
  {
    hide ReadBody, ReadBodies, ReadNumber, ReadNumbers, ReadFlags, RecordHits, FromLittleEndian;
    if f.kind.Text? || f.kind.Struct? {
      if f.isArray {
        BodiesLeave(schema, f.kind, s);
      } else {
        BodyLeaves(schema, f.kind, s);
      }
    }
  }

  lemma {:induction false} FieldLeaves(schema: Schema, f: Option<Field>, data: seq<byte>)
    requires |data| >= 4 && |data| >= Step(data[..4])
    ensures FieldRead(schema, f, data).Outside? <==> f.Some? && FieldHits(schema, f.value, data)
    decreases |data|, 0
  {
    hide FromLittleEndian, ReadData, BodiesHit, RecordHits;
    var sz := FromLittleEndian(data[..4]);
    if f.Some? && sz + 4 < WORD {
      DataLeaves(schema, f.value, data[4..4 + sz]);
    }
  }

  lemma {:induction false} WordsLeave(schema: Schema, t: seq<Field>, words: seq<byte>, tag: int, data: seq<byte>)
    requires |words| % 2 == 0
    ensures DecodeWords(schema, t, words, tag, data).Outside? <==> WordsHit(schema, t, words, tag, data)
    decreases |words| + |data|, |words|
  {
    hide FromLittleEndian, FieldRead, FieldHits, Lookup, Step;
    if words != [] {
      var value, f := FromLittleEndian(words[..2]), Lookup(t, tag + 1);
      if value % 2 == 1 {
        WordsLeave(schema, t, words[2..], tag + 1 + value / 2, data);
      } else if value > 0 {
        WordsLeave(schema, t, words[2..], tag + 1, data);
      } else if |data| >= 4 && |data| >= Step(data[..4]) {
        WordsLeave(schema, t, words[2..], tag + 1, data[Step(data[..4])..]);
        FieldLeaves(schema, f, data);
      }
    }
  }

  /** Decoding any bytes as any type leaves its data if and only if it reaches a field with a length of 2^32 - 4 or more
      that no other test guards, in the record or in one inside it. */
  lemma {:induction false} RecordLeaves(schema: Schema, t: seq<Field>, s: seq<byte>)
    ensures DecodeRecord(schema, t, s).Outside? <==> RecordHits(schema, t, s)
    decreases |s|, 3
  {
    hide DecodeWords, WordsHit, FromLittleEndian;
    if |s| >= 2 && |s| - 2 >= 2 * FromLittleEndian(s[..2]) {
      var end := 2 + 2 * FromLittleEndian(s[..2]);
      WordsLeave(schema, t, s[2..end], -1, s[end..]);
    }
  }

  // ----- data without such a length -----

  /** No four bytes in a row are the number of a length that wraps. */
  ghost predicate NoWrap(s: seq<byte>) {
    forall i :: 0 <= i <= |s| - 4 ==> !Wraps(s, i)
  }

  predicate Wraps(s: seq<byte>, i: int)
    requires 0 <= i <= |s| - 4
  {
    FromLittleEndian(s[i..i + 4]) + 4 >= WORD
  }

  lemma {:induction false} SliceOfSlice(s: seq<byte>, a: nat, b: nat, i: nat)
    requires a <= b <= |s| && i + 4 <= b - a
    ensures s[a..b][i..i + 4] == s[a + i..a + i + 4]
  {
    var u, v := s[a..b][i..i + 4], s[a + i..a + i + 4];
    forall k | 0 <= k < 4 ensures u[k] == v[k] {
    }
  }

  lemma {:induction false} NoWrapPart(s: seq<byte>, a: nat, b: nat)
    requires NoWrap(s) && a <= b <= |s|
    ensures NoWrap(s[a..b])
  {
    hide FromLittleEndian;
    forall i | 0 <= i <= b - a - 4 ensures !Wraps(s[a..b], i) {
      SliceOfSlice(s, a, b, i);
      assert !Wraps(s, a + i);
    }
  }

  lemma {:induction false} NoWrapRest(s: seq<byte>, a: nat)
    requires NoWrap(s) && a <= |s|
    ensures NoWrap(s[a..])
  {
    NoWrapPart(s, a, |s|);
    assert s[a..|s|] == s[a..];
  }

  lemma {:induction false} BodiesClear(schema: Schema, k: Kind, s: seq<byte>)
    requires NoWrap(s) && k.Struct? && k.t < |schema|
    ensures !BodiesHit(schema, k, s)
    decreases |s|, 4
  {
    hide NoWrap, ReadBody, RecordHits, FromLittleEndian;
    if |s| >= 4 && FromLittleEndian(s[..4]) <= |s| - 4 {
      var sz := FromLittleEndian(s[..4]);
      NoWrapPart(s, 4, 4 + sz);
      RecordClear(schema, schema[k.t], s[4..4 + sz]);
      NoWrapRest(s, 4 + sz);
      BodiesClear(schema, k, s[4 + sz..]);
    }
  }

  lemma {:induction false} FieldClear(schema: Schema, f: Field, data: seq<byte>)
    requires NoWrap(data) && |data| >= 4 && |data| >= Step(data[..4])
    ensures !FieldHits(schema, f, data)
    decreases |data|, 0
  {
    var sz := FromLittleEndian(data[..4]);
    assert !Wraps(data, 0) && data[0..4] == data[..4];
    assert sz + 4 < WORD;
    hide FromLittleEndian, BodiesHit, RecordHits;
    NoWrapPart(data, 4, 4 + sz);
    if f.kind.Struct? && f.kind.t < |schema| {
      if f.isArray {
        BodiesClear(schema, f.kind, data[4..4 + sz]);
      } else {
        RecordClear(schema, schema[f.kind.t], data[4..4 + sz]);
      }
    }
  }

  lemma {:induction false} WordsClear(schema: Schema, t: seq<Field>, words: seq<byte>, tag: int, data: seq<byte>)
    requires |words| % 2 == 0 && NoWrap(data)
    ensures !WordsHit(schema, t, words, tag, data)
    decreases |words| + |data|, |words|
  {
    hide NoWrap, FromLittleEndian, FieldRead, FieldHits, Lookup, Step;
    if words != [] {
      var value, f := FromLittleEndian(words[..2]), Lookup(t, tag + 1);
      if value % 2 == 1 {
        WordsClear(schema, t, words[2..], tag + 1 + value / 2, data);
      } else if value > 0 {
        WordsClear(schema, t, words[2..], tag + 1, data);
      } else if |data| >= 4 && |data| >= Step(data[..4]) {
        NoWrapRest(data, Step(data[..4]));
        WordsClear(schema, t, words[2..], tag + 1, data[Step(data[..4])..]);
        if f.Some? {
          FieldClear(schema, f.value, data);
        }
      }
    }
  }

  lemma {:induction false} RecordClear(schema: Schema, t: seq<Field>, s: seq<byte>)
    requires NoWrap(s)
    ensures !RecordHits(schema, t, s)
    decreases |s|, 3
  {
    hide NoWrap, WordsHit, FromLittleEndian;
    if |s| >= 2 && |s| - 2 >= 2 * FromLittleEndian(s[..2]) {
      var end := 2 + 2 * FromLittleEndian(s[..2]);
      NoWrapRest(s, end);
      WordsClear(schema, t, s[2..end], -1, s[end..]);
    }
  }

  /** The record that gives -1 to tag 0. */
  const MINUS_ONE: seq<byte> := [1, 0, 0, 0, 4, 0, 0, 0, 0xFF, 0xFF, 0xFF, 0xFF]

  lemma {:induction false} MinusOneWords()
    ensures |MINUS_ONE| == 12 && FromLittleEndian(MINUS_ONE[..2]) == 1 && FromLittleEndian(MINUS_ONE[2..4]) == 0
    ensures FromLittleEndian(MINUS_ONE[4..][..4]) == 4 && FromLittleEndian(MINUS_ONE[8..]) == WORD - 1
  {
    hide FromLittleEndian;
    TwoBytes(MINUS_ONE[..2]);
    TwoBytes(MINUS_ONE[2..4]);
    FourBytes(MINUS_ONE[4..][..4]);
    FourBytes(MINUS_ONE[8..]);
  }

  /** It is read inside its data, though four of its bytes in a row are a number of 2^32 - 4 or more. */
  lemma {:induction false} MinusOne(schema: Schema, t: seq<Field>)
    requires Lookup(t, 0) == Some(Field(0, Integer, false))
    ensures DecodeRecord(schema, t, MINUS_ONE) == Done(([Entry(0, Int(-1))], 12))
    ensures !NoWrap(MINUS_ONE) && !RecordHits(schema, t, MINUS_ONE)
  {
    hide FromLittleEndian, Lookup, RecordHits, FieldRead, Step;
    MinusOneWords();
    assert MINUS_ONE[8..12] == MINUS_ONE[8..];
    assert Wraps(MINUS_ONE, 8);
    MinusOneField(schema);
    RecordLeaves(schema, t, MINUS_ONE);
    var words, data, f := MINUS_ONE[2..4], MINUS_ONE[4..], Lookup(t, 0);
    assert words[..2] == words && words[2..] == [] && data[8..] == [];
    assert DecodeWords(schema, t, words[2..], 0, data[8..]) == Done(([], []));
    assert [Entry(0, Int(-1))] + [] == [Entry(0, Int(-1))];
    assert Called(f, FieldRead(schema, f, data), Done(([], []))) == Done(([Entry(0, Int(-1))], []));
    assert DecodeWords(schema, t, words, -1, data) == Done(([Entry(0, Int(-1))], []));
  }

  lemma {:induction false} MinusOneField(schema: Schema)
    ensures |MINUS_ONE[4..]| == 8 && Step(MINUS_ONE[4..][..4]) == 8
    ensures FieldRead(schema, Some(Field(0, Integer, false)), MINUS_ONE[4..]) == Done(Some(Int(-1)))
  {
    hide FromLittleEndian;
    MinusOneWords();
    assert MINUS_ONE[4..][4..8] == MINUS_ONE[8..];
  }

  /** What a record was encoded to is never such data, whatever comes after it. */
  lemma {:induction false} EncodedClear(schema: Schema, t: seq<Field>, es: seq<Entry>, rest: seq<byte>)
    requires ValidSchema(schema) && t in schema && TypedEntries(schema, t, es) && |EncodeRecord(schema, t, es)| < WORD
    ensures !RecordHits(schema, t, EncodeRecord(schema, t, es) + rest)
  {
    hide DecodeRecord, RecordHits, EncodeRecord, TypedEntries, ValidSchema;
    RecordBack(schema, t, es, rest);
    RecordLeaves(schema, t, EncodeRecord(schema, t, es) + rest);
  }

  /** A test that knows no type: where no four bytes in a row are a number of 2^32 - 4 or more, decoding stays
      inside the data. It is stricter than it must be, as `MinusOne` shows. */
  lemma {:induction false} RecordInside(schema: Schema, t: seq<Field>, s: seq<byte>)
    requires NoWrap(s)
    ensures !DecodeRecord(schema, t, s).Outside?
  {
    hide NoWrap, DecodeRecord, RecordHits;
    RecordClear(schema, t, s);
    RecordLeaves(schema, t, s);
  }
}
