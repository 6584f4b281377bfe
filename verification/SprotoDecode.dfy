/** The decoder of sproto.c: one pass over the words of the header and the data, calling back field by field. */
module SprotoDecode {
  import opened Basics
  import opened SprotoSpec
  import opened SprotoRoundTrip
  import opened SprotoNeed
  import opened SprotoEncode

  /** `import_type` notes the first tag of a type whose tags leave none out, and -1 for the others. */
  function Base(t: seq<Field>): int {
    if t != [] && t[|t| - 1].tag - t[0].tag + 1 == |t| then t[0].tag else -1
  }

  ghost predicate Ascending(t: seq<Field>) {
    forall i, j :: 0 <= i < j < |t| ==> t[i].tag < t[j].tag
  }

  lemma {:induction false} TagsApart(t: seq<Field>, i: nat, j: nat)
    requires Ascending(t) && i <= j < |t|
    ensures t[j].tag - t[i].tag >= j - i
    decreases j - i
  {
    if i < j {
      TagsApart(t, i, j - 1);
    }
  }

  /** Without a gap, a tag tells its place. */
  lemma {:induction false} Dense(t: seq<Field>, i: nat)
    requires Ascending(t) && Base(t) >= 0 && i < |t|
    ensures t[i].tag == t[0].tag + i
  {
    TagsApart(t, 0, i);
    TagsApart(t, i, |t| - 1);
  }

  lemma {:induction false} NotThere(t: seq<Field>, tag: int)
    requires forall i :: 0 <= i < |t| ==> t[i].tag != tag
    ensures Lookup(t, tag) == None
  {
  }

  /** `findtag`: by place when no tag is left out, else by binary search. */
  method FindTag(t: seq<Field>, tag: int) returns (f: Option<Field>)
    requires Ascending(t)
    ensures f == Lookup(t, tag)
  {
    if Base(t) >= 0 {
      var i := tag - Base(t);
      if i < 0 || i >= |t| {
        forall k | 0 <= k < |t| ensures t[k].tag != tag {
          Dense(t, k);
        }
        NotThere(t, tag);
        return None;
      }
      Dense(t, i);
      FieldAt(t, i);
      return Some(t[i]);
    }
    var begin, end := 0, |t|;
    while begin < end
      invariant 0 <= begin <= end <= |t|
      invariant forall k :: 0 <= k < begin ==> t[k].tag < tag
      invariant forall k :: end <= k < |t| ==> t[k].tag > tag
    {
      var mid := (begin + end) / 2;
      if t[mid].tag == tag {
        FieldAt(t, mid);
        return Some(t[mid]);
      }
      if tag > t[mid].tag {
        begin := mid + 1;
      } else {
        end := mid;
      }
    }
    NotThere(t, tag);
    f := None;
  }

  lemma {:induction false} NextNumberRead(k: Kind, s: seq<byte>, w: nat, at: nat)
    requires (w == 4 || w == 8) && at + w <= |s|
    ensures ReadNumbers(k, s[at..], w) == [ReadNumber(k, s[at..at + w], w)] + ReadNumbers(k, s[at + w..], w)
  {
    hide ReadNumber;
    assert s[at..][..w] == s[at..at + w] && s[at..][w..] == s[at + w..];
  }

  lemma {:induction false} NoNumbers(k: Kind, s: seq<byte>, w: nat)
    requires (w == 4 || w == 8) && |s| == 0
    ensures ReadNumbers(k, s, w) == []
  {
  }

  /** The two loops of `decode_array` over numbers. */
  method DecodeNumbers(k: Kind, s: seq<byte>, width: nat) returns (vs: seq<Value>)
    requires (width == 4 || width == 8) && |s| % width == 0
    ensures vs == ReadNumbers(k, s, width)
  {
    hide ReadNumber, ReadNumbers;
    vs := [];
    var i, n, at := 0, |s| / width, 0;
    assert s[0..] == s;
    while i < n
      invariant 0 <= i <= n && at == i * width <= |s|
      invariant ReadNumbers(k, s, width) == vs + ReadNumbers(k, s[at..], width)
    {
      Room(|s|, width, i);
      NextNumberRead(k, s, width, at);
      var v := ReadNumber(k, s[at..at + width], width);
      Regroup(vs, [v], ReadNumbers(k, s[at + width..], width));
      vs, i, at := vs + [v], i + 1, at + width;
    }
    Room(|s|, width, i);
    NoNumbers(k, s[at..], width);
  }

  lemma {:induction false} Room(n: nat, w: nat, i: nat)
    requires (w == 4 || w == 8) && n % w == 0 && i <= n / w
    ensures i < n / w ==> (i + 1) * w <= n && (i + 1) * w == i * w + w
    ensures i == n / w ==> i * w == n
  {
  }

  method DecodeFlags(s: seq<byte>) returns (vs: seq<Value>)
    ensures vs == ReadFlags(s)
  {
    vs := [];
    var i := 0;
    assert s[0..] == s;
    while i < |s|
      invariant 0 <= i <= |s| && ReadFlags(s) == vs + ReadFlags(s[i..])
    {
      assert s[i..][0] == s[i] && s[i..][1..] == s[i + 1..];
      Regroup(vs, [Flag(s[i] != 0)], ReadFlags(s[i + 1..]));
      vs, i := vs + [Flag(s[i] != 0)], i + 1;
    }
  }

  /** What the callback makes of a text or a record: one that is not read to its end is an error. */
  method DecodeBody(schema: Schema, k: Kind, s: seq<byte>) returns (r: Outcome<Value>)
    requires ValidSchema(schema) && (k.Text? || k.Struct?)
    ensures r == ReadBody(schema, k, s)
    decreases |s|, 4
  {
    if k.Text? {
      return Done(Str(s));
    }
    if k.t >= |schema| {
      return Refused;
    }
    var d := DecodeFrom(schema, schema[k.t], s);
    r := if d.Outside? then Outside else if d.Refused? || d.value.1 != |s| then Refused else Done(Record(d.value.0));
  }

  /** What has been called back, in front of what will be. */
  function Behind(vs: seq<Value>, r: Outcome<seq<Value>>): Outcome<seq<Value>> {
    match r
    case Refused => Refused
    case Outside => Outside
    case Done(more) => Done(vs + more)
  }

  lemma {:induction false} BehindOne(vs: seq<Value>, v: Value, r: Outcome<seq<Value>>)
    ensures Behind(vs, Behind([v], r)) == Behind(vs + [v], r) && Behind([], r) == r
  {
    if r.Done? {
      Regroup(vs, [v], r.value);
      assert [] + r.value == r.value;
    }
  }

  /** `decode_array_object`. */
  method DecodeBodies(schema: Schema, k: Kind, s: seq<byte>) returns (r: Outcome<seq<Value>>)
    requires ValidSchema(schema) && (k.Text? || k.Struct?)
    ensures r == ReadBodies(schema, k, s)
    decreases |s|, 5
  {
    hide ReadBody, ReadBodies, FromLittleEndian;
    var vs, p := [], 0;
    assert s[0..] == s;
    BehindOne([], Flag(false), ReadBodies(schema, k, s));
    while p < |s|
      invariant p <= |s| && ReadBodies(schema, k, s) == Behind(vs, ReadBodies(schema, k, s[p..]))
      decreases |s| - p
    {
      FirstRead(schema, k, s, p);
      if |s| - p < 4 {
        return Refused;
      }
      var hsz := FromLittleEndian(s[p..p + 4]);
      if hsz > |s| - p - 4 {
        return Refused;
      }
      var v := DecodeBody(schema, k, s[p + 4..p + 4 + hsz]);
      if !v.Done? {
        return if v.Outside? then Outside else Refused;
      }
      BehindOne(vs, v.value, ReadBodies(schema, k, s[p + 4 + hsz..]));
      vs, p := vs + [v.value], p + 4 + hsz;
    }
    NothingRead(schema, k, s[p..]);
    assert vs + [] == vs;
    r := Done(vs);
  }

  lemma {:induction false} NothingRead(schema: Schema, k: Kind, s: seq<byte>)
    requires (k.Text? || k.Struct?) && |s| == 0
    ensures ReadBodies(schema, k, s) == Done([])
  {
  }

  /** How the elements from byte `p` on are read. */
  lemma {:induction false} FirstRead(schema: Schema, k: Kind, s: seq<byte>, p: nat)
    requires (k.Text? || k.Struct?) && p < |s|
    ensures ReadBodies(schema, k, s[p..]) ==
            if |s| - p < 4 || FromLittleEndian(s[p..p + 4]) > |s| - p - 4 then Refused
            else
              var end := p + 4 + FromLittleEndian(s[p..p + 4]);
              match ReadBody(schema, k, s[p + 4..end])
              case Refused => Refused
              case Outside => Outside
              case Done(v) => Behind([v], ReadBodies(schema, k, s[end..]))
  {
    hide ReadBody, FromLittleEndian;
    if |s| - p >= 4 {
      assert s[p..][..4] == s[p..p + 4];
      var hsz := FromLittleEndian(s[p..p + 4]);
      if hsz <= |s| - p - 4 {
        assert s[p..][4..4 + hsz] == s[p + 4..p + 4 + hsz] && s[p..][4 + hsz..] == s[p + 4 + hsz..];
      }
    }
  }

  /** `decode_array`. */
  method DecodeArray(schema: Schema, k: Kind, s: seq<byte>) returns (r: Outcome<Option<seq<Value>>>)
    requires ValidSchema(schema)
    ensures r == ReadArray(schema, k, s)
    decreases |s|, 6
  {
    if |s| == 0 {
      return Done(Some([]));
    }
    if k == Integer || k == Double {
      var len := s[0];
      if (len != 4 && len != 8) || (|s| - 1) % len != 0 {
        return Refused;
      }
      var vs := DecodeNumbers(k, s[1..], len);
      r := Done(if |s| == 1 then None else Some(vs));
    } else if k == Boolean {
      var vs := DecodeFlags(s);
      r := Done(Some(vs));
    } else {
      var vs := DecodeBodies(schema, k, s);
      r := match vs case Refused => Refused case Outside => Outside case Done(x) => Done(Some(x));
    }
  }

  /** The branches of `sproto_decode` for a field with data of its own. */
  method DecodeData(schema: Schema, f: Field, s: seq<byte>) returns (r: Outcome<Option<Value>>)
    requires ValidSchema(schema)
    ensures r == ReadData(schema, f, s)
    decreases |s|, 7
  {
    if f.isArray {
      var vs := DecodeArray(schema, f.kind, s);
      r := match vs
        case Refused => Refused
        case Outside => Outside
        case Done(None) => Done(None)
        case Done(Some(x)) => Done(Some(List(x)));
    } else if f.kind == Integer || f.kind == Double {
      r := if |s| == 4 || |s| == 8 then Done(Some(ReadNumber(f.kind, s, |s|))) else Refused;
    } else if f.kind == Boolean {
      r := Refused;
    } else {
      var v := DecodeBody(schema, f.kind, s);
      r := match v case Refused => Refused case Outside => Outside case Done(x) => Done(Some(x));
    }
  }

  /** What has been called back for the fields before. */
  function Before(es: seq<Entry>, r: Outcome<(seq<Entry>, seq<byte>)>): Outcome<(seq<Entry>, seq<byte>)> {
    match r
    case Refused => Refused
    case Outside => Outside
    case Done((more, rest)) => Done((es + more, rest))
  }

  lemma {:induction false} BeforeCalled(es: seq<Entry>, f: Option<Field>, v: Outcome<Option<Value>>,
                                        r: Outcome<(seq<Entry>, seq<byte>)>)
    ensures v.Refused? ==> Before(es, Called(f, v, r)) == Refused
    ensures v.Outside? ==> Before(es, Called(f, v, r)) == Outside
    ensures v.Done? ==>
              Before(es, Called(f, v, r)) ==
              Before(es + if f.Some? && v.value.Some? then [Entry(f.value.tag, v.value.value)] else [], r)
    ensures Before([], r) == r && Before(es, Refused) == Refused
  {
    if r.Done? {
      assert [] + r.value.0 == r.value.0;
      if v.Done? {
        Regroup(es, if f.Some? && v.value.Some? then [Entry(f.value.tag, v.value.value)] else [], r.value.0);
      }
    }
  }

  /** What the next word of a record makes of its data. */
  lemma {:induction false} NextWord(schema: Schema, t: seq<Field>, s: seq<byte>, end: nat, i: nat, tag: int, d: nat)
    requires 4 + 2 * i <= end <= d <= |s| && end % 2 == 0
    ensures var words, value, f := s[2..end], FromLittleEndian(s[2 + 2 * i..4 + 2 * i]), Lookup(t, tag + 1);
            var rest, data := words[2 * (i + 1)..], s[d..];
            DecodeWords(schema, t, words[2 * i..], tag, data) ==
            if value % 2 == 1 then DecodeWords(schema, t, rest, tag + 1 + value / 2, data)
            else if value > 0 then
              Called(f, if f.None? then Done(None) else ReadInline(f.value, value / 2 - 1),
                     DecodeWords(schema, t, rest, tag + 1, data))
            else if |data| < 4 || |data| < Step(data[..4]) then Refused
            else
              Called(f, FieldRead(schema, f, data),
                     DecodeWords(schema, t, rest, tag + 1, s[d + Step(data[..4])..]))
  {
    hide FromLittleEndian, Lookup, ReadInline, FieldRead, Called, Step;
    WordParts(s, i, end);
    var data := s[d..];
    if |data| >= 4 && Step(data[..4]) <= |data| {
      assert data[Step(data[..4])..] == s[d + Step(data[..4])..];
    }
  }

  lemma {:induction false} BeforeNothing(es: seq<Entry>, data: seq<byte>)
    ensures Before(es, Done(([], data))) == Done((es, data))
  {
    assert es + [] == es;
  }

  lemma {:induction false} NoWords(schema: Schema, t: seq<Field>, tag: int, data: seq<byte>)
    ensures DecodeWords(schema, t, [], tag, data) == Done(([], data))
  {
  }

  lemma {:induction false} WordParts(s: seq<byte>, i: nat, end: nat)
    requires 4 + 2 * i <= end <= |s|
    ensures var words := s[2..end];
            words[2 * i..][..2] == s[2 + 2 * i..4 + 2 * i] && words[2 * i..][2..] == words[2 * (i + 1)..]
  {
  }

  lemma {:induction false} LengthAt(s: seq<byte>, d: nat)
    requires d + 4 <= |s|
    ensures s[d..][..4] == s[d..d + 4]
  {
  }

  /** The field with a tag, and what is called back for it: its value is in the word, or in the data with its length. */
  method DecodeField(schema: Schema, t: seq<Field>, tag: int, value: nat, data: seq<byte>)
    returns (f: Option<Field>, v: Outcome<Option<Value>>)
    requires ValidSchema(schema) && ValidType(schema, t) && value % 2 == 0
    requires value == 0 ==> |data| >= 4 && |data| >= Step(data[..4])
    ensures f == Lookup(t, tag)
    ensures v == if value == 0 then FieldRead(schema, f, data)
                 else if f.None? then Done(None) else ReadInline(f.value, value / 2 - 1)
    decreases |data|, 8
  {
    hide ReadData, ReadInline, ReadWrapped, Lookup, FromLittleEndian;
    f := FindTag(t, tag);
    v := Done(None);
    if f.Some? {
      if value == 0 {
        var sz := FromLittleEndian(data[..4]);
        if sz + 4 < WORD {
          v := DecodeData(schema, f.value, data[4..4 + sz]);
        } else {
          v := ReadWrapped(f.value, sz, data[4..]);
        }
      } else {
        v := ReadInline(f.value, value / 2 - 1);
      }
    }
  }

  /** One word of the record: the tag and the place of the data after it, and what has been called back by then. */
  method DecodeWord(schema: Schema, t: seq<Field>, s: seq<byte>, end: nat, i: nat, tag: int, d: nat, es: seq<Entry>)
    returns (o: Outcome<(int, nat, seq<Entry>)>)
    requires ValidSchema(schema) && ValidType(schema, t) && 4 + 2 * i <= end <= d <= |s| && end % 2 == 0
    ensures var before := Before(es, DecodeWords(schema, t, s[2..end][2 * i..], tag, s[d..]));
      match o
      case Refused => before == Refused
      case Outside => before == Outside
      case Done((tag', d', es')) =>
        d <= d' <= |s| && before == Before(es', DecodeWords(schema, t, s[2..end][2 * (i + 1)..], tag', s[d'..]))
    decreases |s|, 2
  {
    hide FromLittleEndian, Lookup, FieldRead, ReadInline, Called, DecodeWords, Before, Step, ValidSchema, ValidType;
    NextWord(schema, t, s, end, i, tag, d);
    BeforeCalled(es, None, Refused, Refused);
    var value := FromLittleEndian(s[2 + 2 * i..4 + 2 * i]);
    if value % 2 == 1 {
      return Done((tag + 1 + value / 2, d, es));
    }
    var next := d;
    if value == 0 {
      if |s| - d < 4 {
        return Refused;
      }
      var step := Step(s[d..d + 4]);
      LengthAt(s, d);
      if |s| - d < step {
        return Refused;
      }
      next := d + step;
    }
    var f, v := DecodeField(schema, t, tag + 1, value, if value == 0 then s[d..] else []);
    BeforeCalled(es, f, v, DecodeWords(schema, t, s[2..end][2 * (i + 1)..], tag + 1, s[next..]));
    if !v.Done? {
      return if v.Outside? then Outside else Refused;
    }
    o := Done((tag + 1, next, es + if f.Some? && v.value.Some? then [Entry(f.value.tag, v.value.value)] else []));
  }

  /** `sproto_decode`. */
  method DecodeFrom(schema: Schema, t: seq<Field>, s: seq<byte>) returns (r: Outcome<(seq<Entry>, nat)>)
    requires ValidSchema(schema) && t in schema
    ensures r == DecodeRecord(schema, t, s)
    decreases |s|, 3
  {
    hide FromLittleEndian, DecodeWords, Before;
    if |s| < 2 {
      return Refused;
    }
    var fn := FromLittleEndian(s[..2]);
    if |s| - 2 < 2 * fn {
      return Refused;
    }
    assert ValidType(schema, t);
    var end := 2 + 2 * fn;
    var es: seq<Entry>, tag: int, i: nat, d: nat := [], -1, 0, end;
    ghost var words, data := s[2..end], s[end..];
    assert words[0..] == words;
    BeforeCalled([], None, Refused, DecodeWords(schema, t, words, -1, data));
    while i < fn
      invariant i <= fn && end <= d <= |s|
      invariant DecodeWords(schema, t, words, -1, data) ==
                Before(es, DecodeWords(schema, t, words[2 * i..], tag, s[d..]))
      decreases fn - i
    {
      var o := DecodeWord(schema, t, s, end, i, tag, d, es);
      if !o.Done? {
        return if o.Outside? then Outside else Refused;
      }
      i, tag, d, es := i + 1, o.value.0, o.value.1, o.value.2;
    }
    NoWords(schema, t, tag, s[d..]);
    BeforeNothing(es, s[d..]);
    assert words[2 * i..] == [];
    r := Done((es, d));
  }

  /** A record through `sproto_encode` and `sproto_decode`: all its fields are called back, and all its bytes are
      read. */
  method EncodeThenDecode(schema: Schema, t: seq<Field>, es: seq<Entry>, buf: array<byte>)
    returns (r: Outcome<(seq<Entry>, nat)>)
    requires ValidSchema(schema) && t in schema && TypedEntries(schema, t, es)
    requires NeedRecord(schema, t, es) <= buf.Length < WORD
    modifies buf
    ensures r == Done((es, |EncodeRecord(schema, t, es)|))
  {
    hide EncodeRecord, DecodeRecord, NeedRecord, TypedEntries;
    var n := EncodeInto(buf, 0, buf.Length, schema, t, es);
    var s := buf[0..n];
    RecordBack(schema, t, es, []);
    assert s + [] == s;
    r := DecodeFrom(schema, t, s);
  }
}
