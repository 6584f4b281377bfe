/** JSON as lua_cjson.c prints and parses it: values, the text printed for them, and what the tokenizer and the parser
    make of any text. */
module JsonSpec {
  import opened Basics

  /** A Lua value that can be printed: a table is an array, or an object with its entries in the order it gives them. */
  datatype Json = Null | Bool(b: bool) | Int(n: int) | Str(s: seq<byte>) | Arr(vs: seq<Json>) | Obj(es: seq<Entry>)

  datatype Entry = Entry(key: seq<byte>, value: Json)

  /** The settings that matter here. */
  datatype Config = Config(encodeMaxDepth: nat, decodeMaxDepth: nat, invalidNumbers: bool)

  const LLONG_MAX: int := 0x7FFF_FFFF_FFFF_FFFF

  const QUOTE: byte := 0x22
  const BACKSLASH: byte := 0x5C
  const COMMA: byte := 0x2C
  const COLON: byte := 0x3A
  const LBRACKET: byte := 0x5B
  const RBRACKET: byte := 0x5D
  const LBRACE: byte := 0x7B
  const RBRACE: byte := 0x7D
  const MINUS: byte := 0x2D
  const ZERO: byte := 0x30
  const LETTER_U: byte := 0x75

  const TRUE_TEXT: seq<byte> := [0x74, 0x72, 0x75, 0x65]
  const FALSE_TEXT: seq<byte> := [0x66, 0x61, 0x6C, 0x73, 0x65]
  const NULL_TEXT: seq<byte> := [0x6E, 0x75, 0x6C, 0x6C]

  // ----- printing -----

  function HexDigit(n: nat): byte
    requires n < 16
  {
    if n < 10 then ZERO + n else 0x61 + n - 10
  }

  /** The letter that stands for a control character after a backslash, or 0. */
  function ShortEscape(c: byte): byte {
    if c == 8 then 0x62 else if c == 9 then 0x74 else if c == 10 then 0x6E else if c == 12 then 0x66
    else if c == 13 then 0x72 else if c == QUOTE || c == 0x2F || c == BACKSLASH then c else 0
  }

  /** `char2escape`: control characters, quote, slash, backslash and DEL are escaped. */
  function Escape(c: byte): (s: seq<byte>)
    ensures 1 <= |s| <= 6
  {
    if ShortEscape(c) != 0 then [BACKSLASH, ShortEscape(c)]
    else if c < 32 || c == 127 then [BACKSLASH, LETTER_U, ZERO, ZERO, HexDigit(c / 16), HexDigit(c % 16)]
    else [c]
  }

  function EscapeAll(s: seq<byte>): (r: seq<byte>)
    ensures |r| <= 6 * |s|
  {
    if s == [] then [] else Escape(s[0]) + EscapeAll(s[1..])
  }

  function PrintString(s: seq<byte>): seq<byte> {
    [QUOTE] + EscapeAll(s) + [QUOTE]
  }

  function Decimal(n: nat): (s: seq<byte>)
    ensures |s| > 0
  {
    if n < 10 then [ZERO + n] else Decimal(n / 10) + [ZERO + n % 10]
  }

  function PrintInt(n: int): seq<byte> {
    if n < 0 then [MINUS] + Decimal(-n) else Decimal(n)
  }

  /** `json_append_data`: an empty table is printed as an object. */
  function Print(v: Json): seq<byte>
    decreases v
  {
    match v
    case Null => NULL_TEXT
    case Bool(b) => if b then TRUE_TEXT else FALSE_TEXT
    case Int(n) => PrintInt(n)
    case Str(s) => PrintString(s)
    case Arr(vs) => if vs == [] then [LBRACE, RBRACE] else [LBRACKET] + PrintItems(vs) + [RBRACKET]
    case Obj(es) => [LBRACE] + PrintEntries(es) + [RBRACE]
  }

  function PrintItems(vs: seq<Json>): seq<byte>
    decreases vs
  {
    if vs == [] then [] else if |vs| == 1 then Print(vs[0]) else Print(vs[0]) + [COMMA] + PrintItems(vs[1..])
  }

  function PrintEntry(e: Entry): seq<byte>
    decreases e
  {
    PrintString(e.key) + [COLON] + Print(e.value)
  }

  function PrintEntries(es: seq<Entry>): seq<byte>
    decreases es
  {
    if es == [] then [] else if |es| == 1 then PrintEntry(es[0])
      else PrintEntry(es[0]) + [COMMA] + PrintEntries(es[1..])
  }

  /** How deep tables are nested. */
  function Depth(v: Json): nat
    decreases v
  {
    match v
    case Arr(vs) => 1 + ItemsDepth(vs)
    case Obj(es) => 1 + EntriesDepth(es)
    case _ => 0
  }

  function Max(a: nat, b: nat): nat {
    if a < b then b else a
  }

  function ItemsDepth(vs: seq<Json>): nat
    decreases vs
  {
    if vs == [] then 0 else Max(Depth(vs[0]), ItemsDepth(vs[1..]))
  }

  function EntriesDepth(es: seq<Entry>): nat
    decreases es
  {
    if es == [] then 0 else Max(Depth(es[0].value), EntriesDepth(es[1..]))
  }

  /** Every integer has 64 bits. */
  ghost predicate IntsFit(v: Json)
    decreases v
  {
    match v
    case Int(n) => -LLONG_MAX - 1 <= n <= LLONG_MAX
    case Arr(vs) => ItemsFit(vs)
    case Obj(es) => EntriesFit(es)
    case _ => true
  }

  ghost predicate ItemsFit(vs: seq<Json>)
    decreases vs, 0
  {
    forall i :: 0 <= i < |vs| ==> IntsFit(vs[i])
  }

  ghost predicate EntriesFit(es: seq<Entry>)
    decreases es, 0
  {
    forall i :: 0 <= i < |es| ==> IntsFit(es[i].value)
  }

  // ----- tokens -----

  datatype Token =
    | ObjBegin | ObjEnd | ArrBegin | ArrEnd | StringToken(s: seq<byte>) | NumberToken | IntegerToken(n: int)
    | BooleanToken(b: bool) | NullToken | ColonToken | CommaToken | EndToken | ErrorToken

  /** The text ends in a zero byte. */
  function At(s: seq<byte>, i: nat): byte {
    if i < |s| then s[i] else 0
  }

  predicate Space(c: byte) {
    c == 0x20 || c == 9 || c == 10 || c == 13
  }

  function SkipSpace(s: seq<byte>): (n: nat)
    ensures n <= |s|
  {
    if s != [] && Space(s[0]) then 1 + SkipSpace(s[1..]) else 0
  }

  predicate StartsWith(s: seq<byte>, w: seq<byte>) {
    |w| <= |s| && s[..|w|] == w
  }

  /** `escape2char`. */
  function Unescape(c: byte): byte {
    if c == QUOTE || c == BACKSLASH || c == 0x2F || c == LETTER_U then c
    else if c == 0x62 then 8 else if c == 0x74 then 9 else if c == 0x6E then 10 else if c == 0x66 then 12
    else if c == 0x72 then 13 else 0
  }

  /** `hexdigit2int`: -1 for anything else. */
  function HexValue(c: byte): (d: int)
    ensures -1 <= d < 16
  {
    if ZERO <= c <= 0x39 then c - ZERO
    else if 0x61 <= c <= 0x66 then c - 0x61 + 10
    else if 0x41 <= c <= 0x46 then c - 0x41 + 10
    else -1
  }

  /** `decode_hex4`. */
  function Hex4(s: seq<byte>, i: nat): (n: int)
    ensures -1 <= n < 0x1_0000
  {
    var a, b, c, d := HexValue(At(s, i)), HexValue(At(s, i + 1)), HexValue(At(s, i + 2)), HexValue(At(s, i + 3));
    if a < 0 || b < 0 || c < 0 || d < 0 then -1 else 0x1000 * a + 0x100 * b + 0x10 * c + d
  }

  /** `codepoint_to_utf8`. */
  function Utf8(n: nat): (s: seq<byte>)
    requires n <= 0x1F_FFFF
    ensures 1 <= |s| <= 4
  {
    if n <= 0x7F then [n]
    else if n <= 0x7FF then [0xC0 + n / 0x40, 0x80 + n % 0x40]
    else if n <= 0xFFFF then [0xE0 + n / 0x1000, 0x80 + n / 0x40 % 0x40, 0x80 + n % 0x40]
    else [0xF0 + n / 0x4_0000, 0x80 + n / 0x1000 % 0x40, 0x80 + n / 0x40 % 0x40, 0x80 + n % 0x40]
  }

  /** The code point that a backslash followed by a u stands for, with a second escape when it takes a pair, and how
      much of the text it takes. */
  function Codepoint(s: seq<byte>): (r: Result<(nat, nat)>)
    ensures r.Ok? ==> r.value.0 <= 0x10_FFFF && r.value.1 <= |s| && (r.value.1 == 6 || r.value.1 == 12)
  {
    var code := Hex4(s, 2);
    if code < 0 then Err
    else if 0xD800 <= code < 0xE000 then
      if code >= 0xDC00 || At(s, 6) != BACKSLASH || At(s, 7) != LETTER_U then Err
      else
        var low := Hex4(s, 8);
        if low < 0xDC00 || low >= 0xE000 then Err
        else Ok(((code - 0xD800) * 0x400 + (low - 0xDC00) + 0x1_0000, 12))
    else Ok((code, 6))
  }

  /** `json_append_unicode_escape`: the bytes, and how much of the text they take. */
  function UnicodeEscape(s: seq<byte>): (r: Result<(seq<byte>, nat)>)
    ensures r.Ok? ==> 1 <= |r.value.0| <= 4 && |r.value.0| <= r.value.1 <= |s| && (r.value.1 == 6 || r.value.1 == 12)
  {
    match Codepoint(s)
    case Err => Err
    case Ok((code, n)) => Ok((Utf8(code), n))
  }

  /** The loop of `json_next_string_token`, behind the first quote: the string, and how much of the text it takes with
      the second quote. */
  function ScanString(s: seq<byte>): (r: Result<(seq<byte>, nat)>)
    ensures r.Ok? ==> |r.value.0| < r.value.1 <= |s|
    decreases |s|
  {
    var c := At(s, 0);
    if c == QUOTE then Ok(([], 1))
    else if c == 0 then Err
    else if c == BACKSLASH then
      var u := Unescape(At(s, 1));
      if u == LETTER_U then
        match UnicodeEscape(s)
        case Err => Err
        case Ok((bytes, n)) => Scanned(bytes, n, ScanString(s[n..]))
      else if u == 0 then Err else Scanned([u], 2, ScanString(s[2..]))
    else Scanned([c], 1, ScanString(s[1..]))
  }

  function Scanned(bytes: seq<byte>, n: nat, r: Result<(seq<byte>, nat)>): Result<(seq<byte>, nat)> {
    match r
    case Err => Err
    case Ok((more, m)) => Ok((bytes + more, n + m))
  }

  lemma {:induction false} ScannedTwice(a: seq<byte>, b: seq<byte>, m: nat, n: nat, r: Result<(seq<byte>, nat)>)
    ensures Scanned(a, m, Scanned(b, n, r)) == Scanned(a + b, m + n, r) && Scanned([], 0, r) == r
  {
    if r.Ok? {
      Regroup(a, b, r.value.0);
      assert [] + r.value.0 == r.value.0;
    }
  }

  /** `json_is_invalid_number`: a sign, a leading zero, hexadecimal, or infinity and not-a-number in any case. */
  predicate InvalidNumber(s: seq<byte>) {
    if At(s, 0) == 0x2B then true
    else
      var i := if At(s, 0) == MINUS then 1 else 0;
      var c, d := At(s, i), At(s, i + 1);
      if c == ZERO then d == 0x78 || d == 0x58 || ZERO <= d <= 0x39
      else if c <= 0x39 then false
      else
        var w := [Lower(c), Lower(d), Lower(At(s, i + 2))];
        w == [0x69, 0x6E, 0x66] || w == [0x6E, 0x61, 0x6E]
  }

  function Lower(c: byte): byte {
    if 0x41 <= c <= 0x5A then c + 32 else c
  }

  function DigitValue(c: byte, base: nat): int {
    var d := HexValue(c);
    if d < base then d else -1
  }

  function More(acc: nat, base: nat, digit: nat): nat {
    base * acc + digit
  }

  /** The digits at the front of `s`, after those of `acc`, and how many there are. */
  function ReadDigits(s: seq<byte>, base: nat, acc: nat): (r: (nat, nat))
    ensures r.1 <= |s|
  {
    if s == [] || DigitValue(s[0], base) < 0 then (acc, 0)
    else var (v, n) := ReadDigits(s[1..], base, More(acc, base, DigitValue(s[0], base))); (v, n + 1)
  }

  /** Where the digits of `strtoll` start, behind a sign and a prefix, and their base. */
  function NumberStart(s: seq<byte>): (r: (nat, nat))
    ensures r.0 <= |s|
  {
    var i := if At(s, 0) == MINUS || At(s, 0) == 0x2B then 1 else 0;
    if At(s, i) != ZERO then (i, 10)
    else if (At(s, i + 1) == 0x78 || At(s, i + 1) == 0x58) && HexValue(At(s, i + 2)) >= 0 then (i + 2, 16)
    else (i, 8)
  }

  /** `strtoll` with base 0, where the text does not start with a space: the number, cut to 64 bits, and how much it
      takes. */
  function StrToLL(s: seq<byte>): (r: (int, nat))
    ensures r.1 <= |s|
  {
    var (from, base) := NumberStart(s);
    var (u, n) := ReadDigits(s[from..], base, 0);
    var v: int := u;
    if n == 0 then (0, 0)
    else if At(s, 0) == MINUS then (if v > LLONG_MAX + 1 then -LLONG_MAX - 1 else -v, from + n)
    else (if v > LLONG_MAX then LLONG_MAX else v, from + n)
  }

  /** `json_next_number_token`; what `strtod` would read is not modelled, and takes nothing. */
  function NumberAt(cfg: Config, s: seq<byte>): (r: (Token, nat))
    ensures r.1 <= |s|
  {
    var enableInvalid := cfg.invalidNumbers && InvalidNumber(s);
    var (v, n) := StrToLL(s);
    if n == 0 && !enableInvalid then (ErrorToken, 0)
    else if At(s, n) == 0x2E || At(s, n) == 0x65 || At(s, n) == 0x45 || n == 0 then (NumberToken, 0)
    else (IntegerToken(v), n)
  }

  /** `json_next_token` where no space is left to skip. */
  function TokenAt(cfg: Config, s: seq<byte>): (r: (Token, nat))
    ensures r.1 <= |s| && (r.0.ObjBegin? || r.0.ArrBegin? || r.0.ColonToken? || r.0.CommaToken? || r.0.StringToken? ==>
                           r.1 > 0)
  {
    var c := At(s, 0);
    if c == LBRACE then (ObjBegin, 1)
    else if c == RBRACE then (ObjEnd, 1)
    else if c == LBRACKET then (ArrBegin, 1)
    else if c == RBRACKET then (ArrEnd, 1)
    else if c == COMMA then (CommaToken, 1)
    else if c == COLON then (ColonToken, 1)
    else if c == 0 then (EndToken, 0)
    else if c == QUOTE then
      (match ScanString(s[1..])
       case Err => (ErrorToken, 0)
       case Ok((bytes, n)) => (StringToken(bytes), 1 + n))
    else if c == MINUS || ZERO <= c <= 0x39 then
      if !cfg.invalidNumbers && InvalidNumber(s) then (ErrorToken, 0) else NumberAt(cfg, s)
    else if StartsWith(s, TRUE_TEXT) then (BooleanToken(true), 4)
    else if StartsWith(s, FALSE_TEXT) then (BooleanToken(false), 5)
    else if StartsWith(s, NULL_TEXT) then (NullToken, 4)
    else if c in {0x66, 0x69, 0x49, 0x6E, 0x4E, 0x74, 0x2B} && cfg.invalidNumbers &&
      InvalidNumber(s) then NumberAt(cfg, s)
    else (ErrorToken, 0)
  }

  /** What is left to parse, a table just opened counted. */
  function Left(token: Token, s: seq<byte>): nat {
    |s| + if token.ObjBegin? || token.ArrBegin? then 1 else 0
  }

  /** `json_next_token`: the token, and the text after it. */
  function NextToken(cfg: Config, s: seq<byte>): (r: (Token, seq<byte>))
    ensures Left(r.0, r.1) <= |s| && (r.0.ColonToken? || r.0.CommaToken? || r.0.StringToken? ==> |r.1| < |s|)
  {
    var t := s[SkipSpace(s)..];
    var (token, n) := TokenAt(cfg, t);
    (token, t[n..])
  }

  // ----- parsing -----

  /** Setting a key of a table. */
  function Put(es: seq<Entry>, key: seq<byte>, v: Json): seq<Entry> {
    if es == [] then [Entry(key, v)]
    else if es[0].key == key then [Entry(key, v)] + es[1..]
    else [es[0]] + Put(es[1..], key, v)
  }

  /** `json_process_value`, for a token already read and the text after it. */
  function ParseValue(cfg: Config, token: Token, s: seq<byte>, depth: nat): (r: Result<(Json, seq<byte>)>)
    ensures r.Ok? ==> |r.value.1| <= |s|
    decreases Left(token, s), 0
  {
    match token
    case StringToken(b) => Ok((Str(b), s))
    case IntegerToken(n) => Ok((Int(n), s))
    case BooleanToken(b) => Ok((Bool(b), s))
    case NullToken => Ok((Null, s))
    case ObjBegin =>
      if depth + 1 > cfg.decodeMaxDepth then Err
      else
        var (t, rest) := NextToken(cfg, s);
        if t == ObjEnd then Ok((Obj([]), rest)) else ParseEntries(cfg, t, rest, depth + 1, [])
    case ArrBegin =>
      if depth + 1 > cfg.decodeMaxDepth then Err
      else
        var (t, rest) := NextToken(cfg, s);
        if t == ArrEnd then Ok((Arr([]), rest)) else ParseItems(cfg, t, rest, depth + 1, [])
    case _ => Err
  }

  /** The loop of `json_parse_object_context`, with the token of the next key read. */
  function ParseEntries(cfg: Config, token: Token, s: seq<byte>, depth: nat,
                        es: seq<Entry>): (r: Result<(Json, seq<byte>)>)
    ensures r.Ok? ==> |r.value.1| <= |s|
    decreases Left(token, s), 1
  {
    if !token.StringToken? then Err
    else
      var (colon, s1) := NextToken(cfg, s);
      if colon != ColonToken then Err
      else
        var (t, s2) := NextToken(cfg, s1);
        match ParseValue(cfg, t, s2, depth)
        case Err => Err
        case Ok((v, s3)) =>
          var (after, s4) := NextToken(cfg, s3);
          if after == ObjEnd then Ok((Obj(Put(es, token.s, v)), s4))
          else if after != CommaToken then Err
          else
            var (next, s5) := NextToken(cfg, s4);
            ParseEntries(cfg, next, s5, depth, Put(es, token.s, v))
  }

  /** The loop of `json_parse_array_context`, with the first token of the next value read. */
  function ParseItems(cfg: Config, token: Token, s: seq<byte>, depth: nat,
                      vs: seq<Json>): (r: Result<(Json, seq<byte>)>)
    ensures r.Ok? ==> |r.value.1| <= |s|
    decreases Left(token, s), 2
  {
    match ParseValue(cfg, token, s, depth)
    case Err => Err
    case Ok((v, s1)) =>
      var (after, s2) := NextToken(cfg, s1);
      if after == ArrEnd then Ok((Arr(vs + [v]), s2))
      else if after != CommaToken then Err
      else
        var (next, s3) := NextToken(cfg, s2);
        ParseItems(cfg, next, s3, depth, vs + [v])
  }

  /** `json_decode`: one value, and nothing after it. */
  function Parse(cfg: Config, s: seq<byte>): Result<Json> {
    if |s| >= 2 && (s[0] == 0 || s[1] == 0) then Err
    else
      var (token, rest) := NextToken(cfg, s);
      match ParseValue(cfg, token, rest, 0)
      case Err => Err
      case Ok((v, rest')) => if NextToken(cfg, rest').0 == EndToken then Ok(v) else Err
  }
}
