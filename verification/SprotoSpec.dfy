/** sproto records: the bytes `sproto_encode` writes for the fields of a record, and what `sproto_decode` calls back. */
module SprotoSpec {
  import opened Basics

  /** Tags come from words that are halved, and leave one value out. */
  const TAGS: int := 0x7FFF

  /** A word of the header holds a small number itself when it is below this. */
  const SMALL: int := 0x7FFF

  datatype Kind = Integer | Boolean | Text | Double | Struct(t: nat)

  datatype Field = Field(tag: nat, kind: Kind, isArray: bool)

  type Schema = seq<seq<Field>>

  /** A value of a field: a double is the bits of its encoding, a record its fields that are not nil. */
  datatype Value =
    | Int(n: int) | Flag(b: bool) | Str(s: seq<byte>) | Real(bits: nat) | Record(es: seq<Entry>) | List(vs: seq<Value>)

  datatype Entry = Entry(tag: nat, value: Value)

  /** `import_type` accepts tags in ascending order only. */
  ghost predicate ValidType(schema: Schema, t: seq<Field>) {
    && (forall i, j :: 0 <= i < j < |t| ==> t[i].tag < t[j].tag)
    && (forall i :: 0 <= i < |t| ==> t[i].tag < TAGS && (t[i].kind.Struct? ==> t[i].kind.t < |schema|))
  }

  ghost predicate ValidSchema(schema: Schema) {
    forall t :: t in schema ==> ValidType(schema, t)
  }

  function Lookup(t: seq<Field>, tag: int): (f: Option<Field>)
    ensures f.Some? ==> f.value in t && f.value.tag == tag
    ensures f.None? ==> forall g :: g in t ==> g.tag != tag
  {
    if t == [] then None else if t[0].tag == tag then Some(t[0]) else Lookup(t[1..], tag)
  }

  predicate Fits32(n: int) {
    -0x8000_0000 <= n < 0x8000_0000
  }

  predicate AllFit32(vs: seq<Value>)
    decreases vs
  {
    vs == [] || ((vs[0].Int? ==> Fits32(vs[0].n)) && AllFit32(vs[1..]))
  }

  // ----- values of a schema -----

  ghost predicate Typed(schema: Schema, k: Kind, v: Value)
    decreases v
  {
    match k
    case Integer => v.Int? && -0x8000_0000_0000_0000 <= v.n < 0x8000_0000_0000_0000
    case Boolean => v.Flag?
    case Text => v.Str?
    case Double => v.Real? && v.bits < DWORD
    case Struct(t) => t < |schema| && v.Record? && TypedEntries(schema, schema[t], v.es)
  }

  ghost predicate AllTyped(schema: Schema, k: Kind, vs: seq<Value>)
    decreases vs
  {
    vs == [] || (Typed(schema, k, vs[0]) && AllTyped(schema, k, vs[1..]))
  }

  ghost predicate TypedEntry(schema: Schema, t: seq<Field>, e: Entry)
    decreases e
  {
    match Lookup(t, e.tag)
    case None => false
    case Some(f) => if f.isArray then e.value.List? && AllTyped(schema, f.kind, e.value.vs)
      else Typed(schema, f.kind, e.value)
  }

  /** The fields that are not nil, in the order of their tags. */
  ghost predicate TypedEntries(schema: Schema, t: seq<Field>, es: seq<Entry>)
    decreases es
  {
    es == [] ||
    (TypedEntry(schema, t, es[0]) && (|es| > 1 ==> es[0].tag < es[1].tag) && TypedEntries(schema, t, es[1..]))
  }

  // ----- what the encoder writes -----

  /** What a field puts into its word of the header, or after the header. */
  datatype Coded = Inline(word: nat) | Data(bytes: seq<byte>)

  /** `fill_size`: a length and what it measures. */
  function Sized(s: seq<byte>): seq<byte> {
    LittleEndian(|s|, 4) + s
  }

  /** The numbers of an array, all in `width` bytes. */
  function Numbers(vs: seq<Value>, width: nat): seq<byte>
    decreases vs
  {
    if vs == [] then [] else NumberBytes(vs[0], width) + Numbers(vs[1..], width)
  }

  function NumberBytes(v: Value, width: nat): (s: seq<byte>)
    ensures |s| == width
  {
    LittleEndian(if v.Int? then (if width == 4 then Low32(v.n) else Low64(v.n)) else if v.Real? then v.bits
                 else 0, width)
  }

  function Flags(vs: seq<Value>): (s: seq<byte>)
    ensures |s| == |vs|
    decreases vs
  {
    if vs == [] then [] else [if vs[0].Flag? && vs[0].b then 1 else 0] + Flags(vs[1..])
  }

  /** The width of the numbers of an array: one that needs 64 bits widens them all. */
  function Width(k: Kind, vs: seq<Value>): nat {
    if k == Integer && AllFit32(vs) then 4 else 8
  }

  function Body(schema: Schema, k: Kind, v: Value): seq<byte>
    requires Typed(schema, k, v) && (k.Text? || k.Struct?)
    decreases v, 0
  {
    match k
    case Text => v.s
    case Struct(t) => EncodeRecord(schema, schema[t], v.es)
  }

  function Bodies(schema: Schema, k: Kind, vs: seq<Value>): seq<byte>
    requires AllTyped(schema, k, vs) && (k.Text? || k.Struct?)
    decreases vs, 0
  {
    if vs == [] then [] else Sized(Body(schema, k, vs[0])) + Bodies(schema, k, vs[1..])
  }

  function Elements(schema: Schema, k: Kind, vs: seq<Value>): seq<byte>
    requires AllTyped(schema, k, vs)
    decreases vs, 1
  {
    match k
    case Integer | Double => if vs == [] then [] else [Width(k, vs)] + Numbers(vs, Width(k, vs))
    case Boolean => Flags(vs)
    case _ => Bodies(schema, k, vs)
  }

  function Code(schema: Schema, f: Field, v: Value): (c: Coded)
    requires if f.isArray then v.List? && AllTyped(schema, f.kind, v.vs) else Typed(schema, f.kind, v)
    ensures c.Inline? ==> c.word % 2 == 0 && 2 <= c.word < 0x1_0000
    decreases v, 1
  {
    if f.isArray then Data(Sized(Elements(schema, f.kind, v.vs)))
    else
      match f.kind
      case Integer =>
        if 0 <= v.n < SMALL then Inline((v.n + 1) * 2)
        else if Fits32(v.n) then Data(Sized(LittleEndian(Low32(v.n), 4)))
        else Data(Sized(LittleEndian(Low64(v.n), 8)))
      case Boolean => Inline(if v.b then 4 else 2)
      case Double => Data(Sized(LittleEndian(v.bits, 8)))
      case _ => Data(Sized(Body(schema, f.kind, v)))
  }

  function CodeOf(schema: Schema, t: seq<Field>, e: Entry): (c: Coded)
    requires TypedEntry(schema, t, e)
    ensures c.Inline? ==> c.word % 2 == 0 && 2 <= c.word < 0x1_0000
    decreases e
  {
    Code(schema, Lookup(t, e.tag).value, e.value)
  }

  function WordBytes(n: nat): (s: seq<byte>)
    ensures |s| == 2
  {
    LittleEndian(n, 2)
  }

  /** A word for the tags skipped since the last field, if there are any. */
  function Gap(last: int, tag: int): seq<byte>
    requires last < tag
  {
    if tag - last > 1 then WordBytes(2 * (tag - last - 2) + 1) else []
  }

  /** The words of the header after their count. */
  function Words(schema: Schema, t: seq<Field>, es: seq<Entry>, last: int): (s: seq<byte>)
    requires TypedEntries(schema, t, es) && (es != [] ==> last < es[0].tag)
    ensures |s| % 2 == 0
    decreases es, 0
  {
    if es == [] then []
    else
      var c := CodeOf(schema, t, es[0]);
      Gap(last, es[0].tag) + WordBytes(if c.Inline? then c.word else 0) + Words(schema, t, es[1..], es[0].tag)
  }

  /** The data after the header. */
  function Datas(schema: Schema, t: seq<Field>, es: seq<Entry>): seq<byte>
    requires TypedEntries(schema, t, es)
    decreases es, 0
  {
    if es == [] then []
    else
      var c := CodeOf(schema, t, es[0]);
      (if c.Data? then c.bytes else []) + Datas(schema, t, es[1..])
  }

  /** `sproto_encode`. */
  function EncodeRecord(schema: Schema, t: seq<Field>, es: seq<Entry>): seq<byte>
    requires TypedEntries(schema, t, es)
    decreases es, 1
  {
    var words := Words(schema, t, es, -1);
    WordBytes(|words| / 2) + words + Datas(schema, t, es)
  }

  // ----- what the decoder calls back -----

  /** Numbers of `width` bytes, read as 64 bits with their sign. */
  function ReadNumbers(k: Kind, s: seq<byte>, width: nat): seq<Value>
    requires width == 4 || width == 8
    decreases |s|
  {
    if |s| < width then [] else [ReadNumber(k, s[..width], width)] + ReadNumbers(k, s[width..], width)
  }

  /** `expand64`, for four bytes. */
  function Expand(n: u32): u64 {
    Low64(Signed32(n))
  }

  function ReadNumber(k: Kind, s: seq<byte>, width: nat): Value
    requires width == 4 || width == 8
  {
    var u := if width == 4 then Expand(Low32(FromLittleEndian(s))) else Low64(FromLittleEndian(s));
    if k == Integer then Int(Signed64(u)) else Real(u)
  }

  function ReadFlags(s: seq<byte>): seq<Value> {
    if s == [] then [] else [Flag(s[0] != 0)] + ReadFlags(s[1..])
  }

  function ReadBody(schema: Schema, k: Kind, s: seq<byte>): Outcome<Value>
    requires k.Text? || k.Struct?
    decreases |s|, 4
  {
    match k
    case Text => Done(Str(s))
    case Struct(t) =>
      if t >= |schema| then Refused
      else
        match DecodeRecord(schema, schema[t], s)
        case Refused => Refused
        case Outside => Outside
        case Done((es, used)) => if used != |s| then Refused else Done(Record(es))
  }

  /** `decode_array_object`. */
  function ReadBodies(schema: Schema, k: Kind, s: seq<byte>): Outcome<seq<Value>>
    requires k.Text? || k.Struct?
    decreases |s|, 0
  {
    if s == [] then Done([])
    else if |s| < 4 then Refused
    else
      var sz := FromLittleEndian(s[..4]);
      if sz > |s| - 4 then Refused
      else
        match ReadBody(schema, k, s[4..4 + sz])
        case Refused => Refused
        case Outside => Outside
        case Done(v) =>
          match ReadBodies(schema, k, s[4 + sz..])
          case Refused => Refused
          case Outside => Outside
          case Done(vs) => Done([v] + vs)
  }

  /** `decode_array`: nothing is called back for an array of numbers that holds none. */
  function ReadArray(schema: Schema, k: Kind, s: seq<byte>): Outcome<Option<seq<Value>>>
    decreases |s|, 5
  {
    if s == [] then Done(Some([]))
    else
      match k
      case Integer | Double =>
        var width := s[0];
        if (width != 4 && width != 8) || (|s| - 1) % width != 0 then Refused
        else Done(if |s| == 1 then None else Some(ReadNumbers(k, s[1..], width)))
      case Boolean => Done(Some(ReadFlags(s)))
      case _ => 
        match ReadBodies(schema, k, s)
        case Refused => Refused
        case Outside => Outside
        case Done(vs) => Done(Some(vs))
  }

  /** A field that has data of its own. */
  function ReadData(schema: Schema, f: Field, s: seq<byte>): Outcome<Option<Value>>
    decreases |s|, 6
  {
    if f.isArray then
      match ReadArray(schema, f.kind, s)
      case Refused => Refused
      case Outside => Outside
      case Done(None) => Done(None)
      case Done(Some(vs)) => Done(Some(List(vs)))
    else
      match f.kind
      case Integer | Double => if |s| == 4 || |s| == 8 then Done(Some(ReadNumber(f.kind, s, |s|))) else Refused
      case Boolean => Refused
      case _ => 
        match ReadBody(schema, f.kind, s)
        case Refused => Refused
        case Outside => Outside
        case Done(v) => Done(Some(v))
  }

  /** A field whose word holds its value. */
  function ReadInline(f: Field, n: nat): Outcome<Option<Value>> {
    if f.isArray then Refused
    else
      match f.kind
      case Integer => Done(Some(Int(n)))
      case Boolean => Done(Some(Flag(n != 0)))
      case _ => Refused
  }

  /** The loop of `sproto_decode` over the words of the header: what is called back, and the data left over. */
  function DecodeWords(schema: Schema, t: seq<Field>, words: seq<byte>, tag: int, data: seq<byte>)
    : (r: Outcome<(seq<Entry>, seq<byte>)>)
    requires |words| % 2 == 0
    ensures r.Done? ==> |r.value.1| <= |data|
    decreases |words| + |data|, |words|
  {
    if words == [] then Done(([], data))
    else
      var value := FromLittleEndian(words[..2]);
      if value % 2 == 1 then DecodeWords(schema, t, words[2..], tag + 1 + value / 2, data)
      else if value > 0 then
        Called(Lookup(t, tag + 1), if Lookup(t, tag + 1).None? then Done(None)
               else ReadInline(Lookup(t, tag + 1).value, value / 2 - 1),
               DecodeWords(schema, t, words[2..], tag + 1, data))
      else if |data| < 4 || |data| < Step(data[..4]) then Refused
      else
        Called(Lookup(t, tag + 1), FieldRead(schema, Lookup(t, tag + 1), data),
               DecodeWords(schema, t, words[2..], tag + 1, data[Step(data[..4])..]))
  }

  /** How far a length moves the decoder on: 4 is added to it in 32 bits. */
  function Step(length: seq<byte>): u32 {
    Low32(FromLittleEndian(length) + 4)
  }

  /** What is read for a field whose data starts with its length. */
  function FieldRead(schema: Schema, f: Option<Field>, data: seq<byte>): Outcome<Option<Value>>
    requires |data| >= 4 && |data| >= Step(data[..4])
    decreases |data|, 0
  {
    var sz := FromLittleEndian(data[..4]);
    if f.None? then Done(None)
    else if sz + 4 < WORD then ReadData(schema, f.value, data[4..4 + sz])
    else ReadWrapped(f.value, sz, data[4..])
  }

  /** A field whose length, 4 added, does not fit 32 bits, and what comes after the length: texts, flags and numbers lie
      beyond the data; as a signed number the length is negative, which stops an array of texts or records before its
      first element, and refuses a record. */
  function ReadWrapped(f: Field, sz: nat, s: seq<byte>): Outcome<Option<Value>>
    requires sz + 4 >= WORD
  {
    match f.kind
    case Integer | Double =>
      if !f.isArray then Refused
      else if s == [] || ((s[0] == 4 || s[0] == 8) && (sz - 1) % s[0] == 0) then Outside
      else Refused
    case Boolean => if f.isArray then Outside else Refused
    case Text => if f.isArray then Done(None) else Outside
    case Struct(_) => if f.isArray then Done(None) else Refused
  }

  /** What is called back for a field, in front of what is called back for the others. */
  function Called(f: Option<Field>, v: Outcome<Option<Value>>, others: Outcome<(seq<Entry>, seq<byte>)>)
    : (r: Outcome<(seq<Entry>, seq<byte>)>)
    ensures r.Done? ==> others.Done? && r.value.1 == others.value.1
  {
    match (v, others)
    case (Done(w), Done((es, rest))) =>
      Done(((if f.Some? && w.Some? then [Entry(f.value.tag, w.value)] else []) + es, rest))
    case (Outside, _) => Outside
    case (Done(_), Outside) => Outside
    case _ => Refused
  }

  /** `sproto_decode`: what is called back, and how many bytes were read. */
  function DecodeRecord(schema: Schema, t: seq<Field>, s: seq<byte>): Outcome<(seq<Entry>, nat)>
    decreases |s|, 3
  {
    if |s| < 2 || |s| - 2 < 2 * FromLittleEndian(s[..2]) then Refused
    else
      var end := 2 + 2 * FromLittleEndian(s[..2]);
      match DecodeWords(schema, t, s[2..end], -1, s[end..])
      case Refused => Refused
      case Outside => Outside
      case Done((es, rest)) => Done((es, |s| - |rest|))
  }
}
