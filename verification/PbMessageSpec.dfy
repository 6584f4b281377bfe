/** Protobuf messages as Lua tables: the bytes `lpb_encode` writes for one, and what `lpbD_message` reads back. */
module PbMessageSpec {
  import opened Basics
  import opened PbVarint

  const TVARINT := 0
  const T64BIT := 1
  const TBYTES := 2
  const TGSTART := 3
  const TGEND := 4
  const T32BIT := 5

  /** `PB_MAX_SIZET`. */
  const MAX_SIZE: int := 0xFFFF_FFFF - 100
  const TAGS: int := 0x2000_0000

  datatype Kind =
    | Bool | Int32 | UInt32 | SInt32 | Int64 | UInt64 | SInt64
    | Fixed32 | SFixed32 | Float | Fixed64 | SFixed64 | Double
    | Bytes | String | MessageOf(t: nat)

  datatype FieldType = FieldType(number: nat, kind: Kind, repeated: bool, packed: bool)

  type Schema = seq<seq<FieldType>>

  /** A Lua value: a float or double is the bits of its encoding. */
  datatype Value =
    | Flag(b: bool) | Whole(n: int) | Bits(bits: nat) | Text(s: seq<byte>)
    | Message(fields: seq<Field>) | Items(vs: seq<Value>)

  /** An entry of a table, or, between the entries, a field the reader's schema does not have. */
  datatype Field = Entry(number: nat, value: Value) | Unknown(number: nat, wire: Wire)

  datatype Wire =
    | AVarint(n: nat) | A64(w: seq<byte>) | ABytes(s: seq<byte>) | A32(w: seq<byte>) | AGroup(parts: seq<Part>)
  datatype Part = Part(number: nat, wire: Wire)

  function Lookup(t: seq<FieldType>, number: nat): (f: Option<FieldType>)
    ensures f.Some? ==> f.value in t && f.value.number == number
    ensures f.None? ==> forall g :: g in t ==> g.number != number
  {
    if t == [] then None else if t[0].number == number then Some(t[0]) else Lookup(t[1..], number)
  }

  ghost predicate ValidSchema(schema: Schema) {
    forall i, f :: 0 <= i < |schema| && f in schema[i] ==>
      f.number < TAGS && (f.kind.MessageOf? ==> f.kind.t < |schema|)
  }

  function WireType(k: Kind): (w: nat)
    ensures w < 8
  {
    match k
    case Double | Fixed64 | SFixed64 => T64BIT
    case Float | Fixed32 | SFixed32 => T32BIT
    case String | Bytes | MessageOf(_) => TBYTES
    case _ => TVARINT
  }

  /** `pb_pair`. */
  function Pair(number: nat, wire: nat): u32 {
    Low32(8 * number + wire)
  }

  /** `pb_expandsig`: flips the sign bit of a word and subtracts it again in 64 bits. */
  function ExpandSig(value: u32): u64 {
    var m := 0x8000_0000;
    Low64((if value < m then value + m else value - m) - m)
  }

  /** `pb_encode_sint32`: shifted left, and all bits flipped for a negative number. */
  function EncodeSint32(value: int): u32 {
    if value < 0 then WORD - 1 - Low32(2 * value) else Low32(2 * value)
  }

  function DecodeSint32(value: u32): int {
    Signed32(if value % 2 == 1 then WORD - 1 - value / 2 else value / 2)
  }

  function EncodeSint64(value: int): u64 {
    if value < 0 then DWORD - 1 - Low64(2 * value) else Low64(2 * value)
  }

  function DecodeSint64(value: u64): int {
    Signed64(if value % 2 == 1 then DWORD - 1 - value / 2 else value / 2)
  }

  /** What a Lua value must be for a field of kind `k` to hold it exactly. */
  predicate ScalarOf(k: Kind, v: Value) {
    match k
    case Bool => v.Flag?
    case Int32 | SInt32 | SFixed32 => v.Whole? && -0x8000_0000 <= v.n < 0x8000_0000
    case UInt32 | Fixed32 => v.Whole? && 0 <= v.n < WORD
    case Int64 | UInt64 | SInt64 | Fixed64 | SFixed64 =>
      v.Whole? && -0x8000_0000_0000_0000 <= v.n < 0x8000_0000_0000_0000
    case Float => v.Bits? && v.bits < WORD
    case Double => v.Bits? && v.bits < DWORD
    case Bytes | String => v.Text?
    case MessageOf(_) => false
  }

  /** `lpb_addtype`. */
  function ScalarBytes(k: Kind, v: Value): seq<byte>
    requires ScalarOf(k, v)
  {
    match k
    case Bool => Digits(if v.b then 1 else 0)
    case Int32 => Digits(ExpandSig(Low32(v.n)))
    case UInt32 => Digits(Low32(v.n))
    case SInt32 => Digits(EncodeSint32(v.n))
    case Int64 | UInt64 => Digits(Low64(v.n))
    case SInt64 => Digits(EncodeSint64(v.n))
    case Fixed32 | SFixed32 => LittleEndian(Low32(v.n), 4)
    case Float => LittleEndian(v.bits, 4)
    case Fixed64 | SFixed64 => LittleEndian(Low64(v.n), 8)
    case Double => LittleEndian(v.bits, 8)
    case Bytes | String => Digits(Low32(|v.s|)) + v.s
  }

  /** What `lpb_readtype` makes of a number read. */
  function ScalarValue(k: Kind, n: nat): Value
    requires WireType(k) != TBYTES
  {
    match k
    case Bool => Flag(Low64(n) != 0)
    case Int32 => Whole(Signed32(Low32(n)))
    case UInt32 => Whole(Low32(n))
    case SInt32 => Whole(DecodeSint32(Low32(n)))
    case Int64 | UInt64 => Whole(Signed64(Low64(n)))
    case SInt64 => Whole(DecodeSint64(Low64(n)))
    case Fixed32 => Whole(Low32(n))
    case SFixed32 => Whole(Signed32(Low32(n)))
    case Float => Bits(Low32(n))
    case Fixed64 | SFixed64 => Whole(Signed64(Low64(n)))
    case Double => Bits(Low64(n))
  }

  // What the encoder writes.

  ghost predicate Typed(schema: Schema, k: Kind, v: Value)
    decreases v
  {
    match k
    case MessageOf(t) => t < |schema| && v.Message? && TypedFields(schema, schema[t], v.fields)
    case _ => ScalarOf(k, v)
  }

  ghost predicate AllTyped(schema: Schema, k: Kind, vs: seq<Value>)
    decreases vs
  {
    vs == [] || (Typed(schema, k, vs[0]) && AllTyped(schema, k, vs[1..]))
  }

  /** A field of the schema holds a value of its kind or, when repeated, a list of them that is packed or not empty. */
  ghost predicate TypedField(schema: Schema, t: seq<FieldType>, f: Field)
    decreases f
  {
    match f
    case Unknown(number, wire) => Lookup(t, number).None? && number < TAGS && WireOk(wire)
    case Entry(number, v) =>
      match Lookup(t, number)
      case None => false
      case Some(ft) =>
        if ft.repeated then v.Items? && (ft.packed || |v.vs| > 0) && AllTyped(schema, ft.kind, v.vs)
        else Typed(schema, ft.kind, v)
  }

  ghost predicate TypedFields(schema: Schema, t: seq<FieldType>, fs: seq<Field>)
    decreases fs
  {
    fs == [] ||
    (TypedField(schema, t, fs[0]) && (fs[0].Entry? ==> !Has(fs[1..], fs[0].number)) && TypedFields(schema, t, fs[1..]))
  }

  predicate Has(fs: seq<Field>, number: nat) {
    exists i :: 0 <= i < |fs| && fs[i].Entry? && fs[i].number == number
  }

  predicate WireOk(w: Wire)
    decreases w
  {
    match w
    case AVarint(n) => true
    case A64(b) => |b| == 8
    case ABytes(s) => |s| <= MAX_SIZE
    case A32(b) => |b| == 4
    case AGroup(parts) => PartsOk(parts)
  }

  predicate PartOk(p: Part)
    decreases p
  {
    p.number < TAGS && WireOk(p.wire)
  }

  predicate PartsOk(parts: seq<Part>)
    decreases parts
  {
    parts == [] || (PartOk(parts[0]) && PartsOk(parts[1..]))
  }

  function WireTypeOf(w: Wire): nat {
    match w
    case AVarint(_) => TVARINT
    case A64(_) => T64BIT
    case ABytes(_) => TBYTES
    case A32(_) => T32BIT
    case AGroup(_) => TGSTART
  }

  /** The bytes of an unknown field after its tag; a group ends with a tag of its own. */
  function WireBytes(number: nat, w: Wire): seq<byte>
    decreases w
  {
    match w
    case AVarint(n) => Digits(n)
    case A64(b) => b
    case ABytes(s) => Digits(|s|) + s
    case A32(b) => b
    case AGroup(parts) => PartsBytes(parts) + Digits(Pair(number, TGEND))
  }

  function PartBytes(p: Part): seq<byte>
    decreases p
  {
    Digits(Pair(p.number, WireTypeOf(p.wire))) + WireBytes(p.number, p.wire)
  }

  function PartsBytes(parts: seq<Part>): seq<byte>
    decreases parts
  {
    if parts == [] then [] else PartBytes(parts[0]) + PartsBytes(parts[1..])
  }

  /** A length and what it measures, as `pb_addlength` leaves them. */
  function Prefixed(s: seq<byte>): seq<byte> {
    Digits(|s|) + s
  }

  function EncodeValue(schema: Schema, k: Kind, v: Value): seq<byte>
    requires Typed(schema, k, v)
    decreases v
  {
    match k
    case MessageOf(t) => Prefixed(EncodeFields(schema, schema[t], v.fields))
    case _ => ScalarBytes(k, v)
  }

  function EncodePacked(schema: Schema, k: Kind, vs: seq<Value>): seq<byte>
    requires AllTyped(schema, k, vs)
    decreases vs
  {
    if vs == [] then [] else EncodeValue(schema, k, vs[0]) + EncodePacked(schema, k, vs[1..])
  }

  function EncodeTagged(schema: Schema, ft: FieldType, vs: seq<Value>): seq<byte>
    requires AllTyped(schema, ft.kind, vs)
    decreases vs
  {
    if vs == [] then []
    else
      var tag := Digits(Pair(ft.number, WireType(ft.kind)));
      tag + EncodeValue(schema, ft.kind, vs[0]) + EncodeTagged(schema, ft, vs[1..])
  }

  function EncodeField(schema: Schema, t: seq<FieldType>, f: Field): seq<byte>
    requires TypedField(schema, t, f)
    decreases f
  {
    match f
    case Unknown(number, wire) => Digits(Pair(number, WireTypeOf(wire))) + WireBytes(number, wire)
    case Entry(number, v) =>
      var ft := Lookup(t, number).value;
      if !ft.repeated then Digits(Pair(number, WireType(ft.kind))) + EncodeValue(schema, ft.kind, v)
      else if ft.packed then Digits(Pair(number, TBYTES)) + Prefixed(EncodePacked(schema, ft.kind, v.vs))
      else EncodeTagged(schema, ft, v.vs)
  }

  /** `lpb_encode`, on the entries in the order the table gives them. */
  function EncodeFields(schema: Schema, t: seq<FieldType>, fs: seq<Field>): seq<byte>
    requires TypedFields(schema, t, fs)
    decreases fs
  {
    if fs == [] then [] else EncodeField(schema, t, fs[0]) + EncodeFields(schema, t, fs[1..])
  }

  // What the decoder reads.

  /** `pb_skipvarint`: the length of a varint, however long. */
  function SkipVarint(s: seq<byte>): (n: nat)
    ensures n <= |s|
  {
    if s == [] then 0 else if s[0] < 128 then 1 else var n := SkipVarint(s[1..]); if n == 0 then 0 else n + 1
  }

  /** `pb_skipbytes`: a length and that many bytes. */
  function SkipBytes(s: seq<byte>): (n: nat)
    ensures n <= |s|
  {
    match Varint(s, 10)
    case Bad => 0
    case Good(v, used) => if |s| - used < Low64(v) then 0 else used + Low64(v)
  }

  /** `pb_skipvalue`: how many bytes the value after `tag` takes, or 0. */
  function SkipValue(s: seq<byte>, tag: u32): (n: nat)
    ensures n <= |s|
    decreases |s|, 1
  {
    match tag % 8
    case 0 => SkipVarint(s)
    case 1 => if |s| < 8 then 0 else 8
    case 2 => SkipBytes(s)
    case 3 => SkipGroup(s, tag / 8)
    case 5 => if |s| < 4 then 0 else 4
    case _ => 0
  }

  /** `pb_readgroup`: fields up to the end tag with the same number. */
  function SkipGroup(s: seq<byte>, number: nat): (n: nat)
    ensures n <= |s|
    decreases |s|, 0
  {
    match Varint(s, 10)
    case Bad => 0
    case Good(v, used) =>
      var tag := Low32(v);
      if tag % 8 == TGEND then if tag / 8 == number then used else 0
      else
        var n := SkipValue(s[used..], tag);
        if n == 0 then 0
        else var m := SkipGroup(s[used + n..], number); if m == 0 then 0 else used + n + m
  }

  /** `lpb_readbytes`: where the bytes after a length end, if they are all there. */
  function ReadBytes(s: seq<byte>): (r: Result<(nat, nat)>)
    ensures r.Ok? ==> 0 < r.value.0 <= r.value.1 <= |s|
  {
    match Varint(s, 10)
    case Bad => Err
    case Good(v, used) =>
      var len := Low64(v);
      if len > MAX_SIZE || |s| - used < len then Err else Ok((used, used + len))
  }

  /** `lpbD_rawfield`: a value and how many bytes it took. */
  function DecodeRaw(schema: Schema, k: Kind, s: seq<byte>): (r: Result<(Value, nat)>)
    ensures r.Ok? ==> 0 < r.value.1 <= |s|
    decreases |s|, 1
  {
    match WireType(k)
    case 0 => (match Varint(s, 10) case Bad => Err case Good(v, used) => Ok((ScalarValue(k, v), used)))
    case 1 => if |s| < 8 then Err else Ok((ScalarValue(k, FromLittleEndian(s[..8])), 8))
    case 5 => if |s| < 4 then Err else Ok((ScalarValue(k, FromLittleEndian(s[..4])), 4))
    case _ =>
      match ReadBytes(s)
      case Err => Err
      case Ok((from, to)) =>
        if k.MessageOf? then
          if k.t >= |schema| then Err
          else
            match DecodeFields(schema, schema[k.t], s[from..to], [])
            case Err => Err
            case Ok(fs) => Ok((Message(fs), to))
        else Ok((Text(s[from..to]), to))
  }

  /** The loop of `lpbD_repeated` over a packed list. */
  function DecodePacked(schema: Schema, k: Kind, s: seq<byte>): Result<seq<Value>>
    decreases |s|, 2
  {
    if s == [] then Ok([])
    else
      match DecodeRaw(schema, k, s)
      case Err => Err
      case Ok((v, used)) =>
        match DecodePacked(schema, k, s[used..])
        case Err => Err
        case Ok(vs) => Ok([v] + vs)
  }

  /** The list a table holds at `number`, new when there is none. */
  function ListAt(acc: seq<Field>, number: nat): seq<Value> {
    if acc == [] then []
    else if acc[0].Entry? && acc[0].number == number then if acc[0].value.Items? then acc[0].value.vs else []
    else ListAt(acc[1..], number)
  }

  /** Setting a field of a table. */
  function Put(acc: seq<Field>, number: nat, v: Value): seq<Field> {
    if acc == [] then [Entry(number, v)]
    else if acc[0].Entry? && acc[0].number == number then [Entry(number, v)] + acc[1..]
    else [acc[0]] + Put(acc[1..], number, v)
  }

  /** One field of a known number after its tag. */
  function DecodeKnown(schema: Schema, ft: FieldType, tag: u32, s: seq<byte>,
                       acc: seq<Field>): (r: Result<(seq<Field>, nat)>)
    ensures r.Ok? ==> 0 < r.value.1 <= |s|
    decreases |s|, 3
  {
    if ft.repeated && tag % 8 == TBYTES && (ft.packed || WireType(ft.kind) != TBYTES) then
      match ReadBytes(s)
      case Err => Err
      case Ok((from, to)) =>
        (match DecodePacked(schema, ft.kind, s[from..to])
         case Err => Err
         case Ok(vs) => Ok((Put(acc, ft.number, Items(ListAt(acc, ft.number) + vs)), to)))
    else if WireType(ft.kind) != tag % 8 then Err
    else
      match DecodeRaw(schema, ft.kind, s)
      case Err => Err
      case Ok((v, used)) =>
        Ok((Put(acc, ft.number, if ft.repeated then Items(ListAt(acc, ft.number) + [v]) else v), used))
  }

  /** `lpbD_message`: fields until no tag can be read. */
  function DecodeFields(schema: Schema, t: seq<FieldType>, s: seq<byte>, acc: seq<Field>): Result<seq<Field>>
    decreases |s|, 0
  {
    match Varint(s, 10)
    case Bad => Ok(acc)
    case Good(v, used) =>
      var tag := Low32(v);
      match Lookup(t, tag / 8)
      case None => DecodeFields(schema, t, s[used + SkipValue(s[used..], tag)..], acc)
      case Some(ft) =>
        match DecodeKnown(schema, ft, tag, s[used..], acc)
        case Err => Err
        case Ok((acc', n)) => DecodeFields(schema, t, s[used + n..], acc')
  }
}
