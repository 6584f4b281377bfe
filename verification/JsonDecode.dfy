/** The parser of lua_cjson.c: a pointer that moves over the text, and one buffer for the strings in it that is never
    grown. */
module JsonDecode {
  import opened Basics
  import opened JsonBuffer
  import JsonEncode
  import JsonRoundTrip
  import opened JsonSpec

  /** What a parse of a value leaves when it should give `spec`. */
  ghost predicate Parsed(spec: Result<(Json, seq<byte>)>, r: Result<Json>, rest: seq<byte>) {
    match spec
    case Err => r == Err
    case Ok((v, s)) => r == Ok(v) && rest == s
  }

  /** `codepoint_to_utf8`, with shifts and masks. */
  method CodepointToUtf8(codepoint: nat) returns (utf8: seq<byte>)
    requires codepoint <= 0x1F_FFFF
    ensures utf8 == Utf8(codepoint)
  {
    if codepoint <= 0x7F {
      return [codepoint];
    }
    if codepoint <= 0x7FF {
      return [codepoint / 0x40 + 0xC0, codepoint % 0x40 + 0x80];
    }
    if codepoint <= 0xFFFF {
      return [codepoint / 0x1000 + 0xE0, codepoint / 0x40 % 0x40 + 0x80, codepoint % 0x40 + 0x80];
    }
    return [codepoint / 0x4_0000 + 0xF0, codepoint / 0x1000 % 0x40 + 0x80, codepoint / 0x40 % 0x40 + 0x80,
            codepoint % 0x40 + 0x80];
  }

  lemma {:induction false} NoValue(cfg: Config, s: seq<byte>, depth: nat)
    ensures ParseValue(cfg, ErrorToken, s, depth) == Err
    ensures forall vs: seq<Json> :: ParseItems(cfg, ErrorToken, s, depth, vs) == Err
    ensures forall es: seq<Entry> :: ParseEntries(cfg, ErrorToken, s, depth, es) == Err
  {
  }

  /** The first part of what `ParseEntries` does: the entry and the text after it. */
  ghost function EntryAt(cfg: Config, token: Token, s: seq<byte>, depth: nat): (r: Result<(Entry, seq<byte>)>)
    ensures r.Ok? ==> |r.value.1| < |s|
  {
    if !token.StringToken? then Err
    else
      var (colon, s1) := NextToken(cfg, s);
      if colon != ColonToken then Err
      else
        var (t, s2) := NextToken(cfg, s1);
        match ParseValue(cfg, t, s2, depth)
        case Err => Err
        case Ok((v, s3)) => Ok((Entry(token.s, v), s3))
  }

  lemma {:induction false} EntryFirst(cfg: Config, token: Token, s: seq<byte>, depth: nat, es: seq<Entry>)
    ensures !token.StringToken? ==> EntryAt(cfg, token, s, depth) == Err
    ensures ParseEntries(cfg, token, s, depth, es) ==
            match EntryAt(cfg, token, s, depth)
            case Err => Err
            case Ok((e, s1)) =>
              var (after, s2) := NextToken(cfg, s1);
              if after == ObjEnd then Ok((Obj(Put(es, e.key, e.value)), s2))
              else if after != CommaToken then Err
              else ParseEntries(cfg, NextToken(cfg, s2).0, NextToken(cfg, s2).1, depth, Put(es, e.key, e.value))
  {
    hide NextToken, ParseValue, Put;
  }

  lemma {:induction false} ItemFirst(cfg: Config, token: Token, s: seq<byte>, depth: nat, vs: seq<Json>)
    ensures token == ErrorToken ==> ParseValue(cfg, token, s, depth) == Err
    ensures ParseItems(cfg, token, s, depth, vs) ==
            match ParseValue(cfg, token, s, depth)
            case Err => Err
            case Ok((v, s1)) =>
              var (after, s2) := NextToken(cfg, s1);
              if after == ArrEnd then Ok((Arr(vs + [v]), s2))
              else if after != CommaToken then Err
              else ParseItems(cfg, NextToken(cfg, s2).0, NextToken(cfg, s2).1, depth, vs + [v])
  {
    hide NextToken;
  }

  /** What a brace or a bracket starts. */
  lemma {:induction false} TableOpens(cfg: Config, s: seq<byte>, depth: nat)
    ensures var (t, rest) := NextToken(cfg, s);
            && ParseValue(cfg, ObjBegin, s, depth) ==
               (if depth + 1 > cfg.decodeMaxDepth then Err
                else if t == ObjEnd then Ok((Obj([]), rest)) else ParseEntries(cfg, t, rest, depth + 1, []))
            && ParseValue(cfg, ArrBegin, s, depth) ==
               (if depth + 1 > cfg.decodeMaxDepth then Err
                else if t == ArrEnd then Ok((Arr([]), rest)) else ParseItems(cfg, t, rest, depth + 1, []))
  {
    hide NextToken, ParseEntries, ParseItems;
  }

  class Parser {
    const data: seq<byte>
    const cfg: Config
    const tmp: StrBuf
    var ptr: nat
    var currentDepth: int

    /** The pointer is inside the text or at its end, and the buffer could hold all of it. */
    ghost predicate Valid()
      reads this, tmp
    {
      ptr <= |data| && tmp.Valid() && tmp.buf.Length > |data|
    }

    ghost function Rest(): seq<byte>
      reads this
      requires ptr <= |data|
    {
      data[ptr..]
    }

    /** The set-up in `json_decode`: the buffer is as long as the text. */
    constructor (data: seq<byte>, cfg: Config)
      ensures Valid() && fresh(tmp) && fresh(tmp.buf)
      ensures this.data == data && this.cfg == cfg && ptr == 0 && currentDepth == 0
    {
      this.data := data;
      this.cfg := cfg;
      tmp := new StrBuf(|data|);
      ptr := 0;
      currentDepth := 0;
    }

    /** The byte at `i`, which is never read past the terminating zero. */
    function Byte(i: nat): (c: byte)
      requires i <= |data|
      ensures c == At(data, i)
    {
      if i < |data| then data[i] else 0
    }

    /** `decode_hex4`, which stops at the first character that is no digit. */
    method DecodeHex4(at: nat) returns (n: int)
      requires at <= |data|
      ensures n == Hex4(data, at) && (n >= 0 ==> at + 4 <= |data|)
    {
      var i, digits: seq<int> := 0, [];
      while i < 4
        invariant 0 <= i <= 4 && |digits| == i && at + i <= |data|
        invariant forall k :: 0 <= k < i ==> digits[k] == HexValue(At(data, at + k)) && digits[k] >= 0
      {
        var d := HexValue(Byte(at + i));
        if d < 0 {
          return -1;
        }
        digits := digits + [d];
        i := i + 1;
      }
      assert digits[0] == HexValue(At(data, at + 0));
      n := 0x1000 * digits[0] + 0x100 * digits[1] + 0x10 * digits[2] + digits[3];
    }

    /** The reading part of `json_append_unicode_escape`: the code point, or -1, and how long the escape is. */
    method ReadEscape() returns (codepoint: int, escapeLen: nat)
      requires Valid() && ptr + 2 <= |data|
      ensures var spec := Codepoint(Rest());
              if spec.Ok? then (codepoint, escapeLen) == spec.value else codepoint == -1
    {
      hide HexValue, Hex4;
      RestAt(ptr);
      codepoint := DecodeHex4(ptr + 2);
      escapeLen := 6;
      if codepoint < 0 {
        return -1, 0;
      }
      if codepoint / 0x800 == 0x1B {
        if codepoint / 0x400 % 2 == 1 {
          return -1, 0;
        }
        if Byte(ptr + escapeLen) != BACKSLASH || Byte(ptr + escapeLen + 1) != LETTER_U {
          return -1, 0;
        }
        var low := DecodeHex4(ptr + 2 + escapeLen);
        if low < 0 {
          return -1, 0;
        }
        if low / 0x400 != 0x37 {
          return -1, 0;
        }
        codepoint := codepoint % 0x400 * 0x400 + low % 0x400 + 0x1_0000;
        escapeLen := 12;
      }
    }

    /** `json_append_unicode_escape`. */
    method AppendUnicodeEscape() returns (ok: bool)
      requires Valid() && ptr + 2 <= |data| && tmp.length <= ptr
      modifies this`ptr, tmp`length, tmp.buf
      ensures Valid() && tmp.buf == old(tmp.buf) && ptr >= old(ptr)
      ensures var spec := UnicodeEscape(old(Rest()));
              && ok == spec.Ok?
              && (ok ==> && tmp.Contents() == old(tmp.Contents()) + spec.value.0
                         && ptr == old(ptr) + spec.value.1 && tmp.length <= ptr)
    {
      hide Utf8, Codepoint;
      var codepoint, escapeLen := ReadEscape();
      if codepoint < 0 {
        return false;
      }
      var utf8 := CodepointToUtf8(codepoint);
      tmp.AppendMemUnsafe(utf8);
      ptr := ptr + escapeLen;
      ok := true;
    }

    /** The text behind the pointer, seen from the pointer. */
    lemma {:induction false} RestAt(p: nat)
      requires p <= |data|
      ensures forall i: nat :: At(data[p..], i) == At(data, p + i)
      ensures forall i: nat :: Hex4(data[p..], i) == Hex4(data, p + i)
    {
      forall i: nat ensures Hex4(data[p..], i) == Hex4(data, p + i) {
        assert p + (i + 1) == p + i + 1;
      }
    }

    /** What is left of the scan after the strings and the text so far. */
    ghost predicate Scanning(start: nat)
      reads this, tmp, tmp.buf
      requires start <= |data|
    {
      && Valid() && start <= ptr && tmp.length <= ptr
      && ScanString(data[start..]) == Scanned(tmp.Contents(), ptr - start, ScanString(Rest()))
    }

    /** An escaped code point inside a string. */
    method ScanUnicode(ghost start: nat) returns (ok: bool)
      requires start <= |data| && Scanning(start) && Byte(ptr) == BACKSLASH && Unescape(Byte(ptr + 1)) == LETTER_U
      modifies this`ptr, tmp`length, tmp.buf
      ensures Valid() && tmp.buf == old(tmp.buf) && ptr >= old(ptr)
      ensures if ok then Scanning(start) && ptr > old(ptr) else ptr >= old(ptr) && ScanString(data[start..]) == Err
    {
      hide UnicodeEscape, Scanned;
      RestAt(ptr);
      ghost var rest, before, at := Rest(), tmp.Contents(), ptr;
      UnescapeReads(data, ptr + 1);
      hide Unescape;
      ok := AppendUnicodeEscape();
      if ok {
        ghost var (bytes, n) := UnicodeEscape(rest).value;
        assert rest[n..] == Rest();
        ScannedTwice(before, bytes, at - start, n, ScanString(Rest()));
      } else {
        ScannedError(before, at - start);
        ScannedError([], 0);
      }
    }

    /** One character or escape of `json_next_string_token`. */
    method ScanOne(ghost start: nat) returns (ok: bool)
      requires start <= |data| && Scanning(start) && Byte(ptr) != QUOTE && Byte(ptr) != 0
      modifies this`ptr, tmp`length, tmp.buf
      ensures Valid() && tmp.buf == old(tmp.buf) && ptr >= old(ptr)
      ensures if ok then Scanning(start) && ptr > old(ptr) else ptr >= old(ptr) && ScanString(data[start..]) == Err
    {
      hide Unescape, UnicodeEscape, Scanned;
      RestAt(ptr);
      ghost var rest, before, at := Rest(), tmp.Contents(), ptr;
      var ch := Byte(ptr);
      if ch == BACKSLASH {
        ch := Unescape(Byte(ptr + 1));
        if ch == LETTER_U {
          ok := ScanUnicode(start);
          return;
        }
        if ch == 0 {
          ScannedError(before, at - start);
          return false;
        }
        UnescapeReads(data, ptr + 1);
        ptr := ptr + 1;
      }
      tmp.AppendCharUnsafe(ch);
      ptr := ptr + 1;
      ok := true;
      assert rest[ptr - at..] == Rest();
      ScannedTwice(before, [ch], at - start, ptr - at, ScanString(Rest()));
    }

    /** `json_next_string_token`: the buffer is big enough for every character that is put there unchecked. */
    method NextStringToken() returns (token: Token)
      requires Valid() && Byte(ptr) == QUOTE
      modifies this`ptr, tmp`length, tmp.buf
      ensures Valid() && tmp.buf == old(tmp.buf) && ptr >= old(ptr)
      ensures match ScanString(old(data[ptr..])[1..])
              case Err => token == ErrorToken
              case Ok((bytes, n)) => token == StringToken(bytes) && ptr == old(ptr) + 1 + n
    {
      hide ScanString;
      assert data[ptr..][1..] == data[ptr + 1..];
      ptr := ptr + 1;
      ghost var start := ptr;
      tmp.Reset();
      ScannedTwice([], [], 0, 0, ScanString(Rest()));
      while Byte(ptr) != QUOTE
        invariant start <= ptr <= |data| && Scanning(start) && tmp.buf == old(tmp.buf)
        decreases |data| - ptr
      {
        if Byte(ptr) == 0 {
          RestAt(ptr);
          ScanEnds(Rest());
          ScannedError(tmp.Contents(), ptr - start);
          return ErrorToken;
        }
        var ok := ScanOne(start);
        if !ok {
          return ErrorToken;
        }
      }
      RestAt(ptr);
      ScanEnds(Rest());
      ptr := ptr + 1;
      tmp.EnsureNull();
      token := StringToken(tmp.buf[..tmp.length]);
      assert tmp.Contents() + [] == tmp.Contents();
    }

    /** `json_is_invalid_number`. */
    method IsInvalidNumber() returns (invalid: bool)
      requires Valid()
      ensures invalid == InvalidNumber(Rest())
    {
      RestAt(ptr);
      var p := ptr;
      if Byte(p) == 0x2B {
        return true;
      }
      if Byte(p) == MINUS {
        p := p + 1;
      }
      if Byte(p) == ZERO {
        var ch2 := Byte(p + 1);
        return ch2 == 0x78 || ch2 == 0x58 || ZERO <= ch2 <= 0x39;
      }
      if Byte(p) <= 0x39 {
        return false;
      }
      return SameLetters(p, [0x69, 0x6E, 0x66]) || SameLetters(p, [0x6E, 0x61, 0x6E]);
    }

    /** `strncasecmp` with a word in small letters. */
    predicate SameLetters(p: nat, w: seq<byte>) {
      |w| == 3 && [Lower(At(data, p)), Lower(At(data, p + 1)), Lower(At(data, p + 2))] == w
    }

    /** `json_next_number_token`. */
    method NextNumberToken() returns (token: Token)
      requires Valid()
      modifies this`ptr
      ensures Valid() && (token, ptr - old(ptr)) == NumberAt(cfg, old(Rest()))
    {
      hide InvalidNumber, StrToLL;
      RestAt(ptr);
      var enableInvalid := cfg.invalidNumbers;
      if enableInvalid {
        enableInvalid := IsInvalidNumber();
      }
      var (integer, n) := StrToLL(data[ptr..]);
      var invalid := n == 0;
      if invalid && !enableInvalid {
        return ErrorToken;
      }
      var end := Byte(ptr + n);
      if end == 0x2E || end == 0x65 || end == 0x45 || invalid {
        return NumberToken;
      }
      ptr := ptr + n;
      token := IntegerToken(integer);
    }

    /** `strncmp` with a word. */
    predicate Looking(w: seq<byte>)
      reads this
      requires ptr <= |data|
    {
      StartsWith(data[ptr..], w)
    }

    /** The end of `json_next_token`, where a string, a number or a word must come. */
    method NextLongToken() returns (token: Token)
      requires Valid()
      requires Byte(ptr) !in {LBRACE, RBRACE, LBRACKET, RBRACKET, COMMA, COLON, 0}
      modifies this`ptr, tmp`length, tmp.buf
      ensures Valid() && tmp.buf == old(tmp.buf) && ptr >= old(ptr)
      ensures var (t, n) := TokenAt(cfg, old(Rest())); token == t && (t != ErrorToken ==> ptr == old(ptr) + n)
    {
      hide ScanString, InvalidNumber, NumberAt;
      RestAt(ptr);
      var ch := Byte(ptr);
      if ch == QUOTE {
        token := NextStringToken();
      } else if ch == MINUS || ZERO <= ch <= 0x39 {
        if !cfg.invalidNumbers {
          var invalid := IsInvalidNumber();
          if invalid {
            return ErrorToken;
          }
        }
        token := NextNumberToken();
      } else if Looking(TRUE_TEXT) {
        ptr := ptr + 4;
        token := BooleanToken(true);
      } else if Looking(FALSE_TEXT) {
        ptr := ptr + 5;
        token := BooleanToken(false);
      } else if Looking(NULL_TEXT) {
        ptr := ptr + 4;
        token := NullToken;
      } else if ch in {0x66, 0x69, 0x49, 0x6E, 0x4E, 0x74, 0x2B} && cfg.invalidNumbers {
        var invalid := IsInvalidNumber();
        if !invalid {
          return ErrorToken;
        }
        token := NextNumberToken();
      } else {
        token := ErrorToken;
      }
    }

    /** `json_next_token`. */
    method NextToken() returns (token: Token)
      requires Valid()
      modifies this`ptr, tmp`length, tmp.buf
      ensures Valid() && tmp.buf == old(tmp.buf) && ptr >= old(ptr)
      ensures var (t, rest) := JsonSpec.NextToken(cfg, old(Rest())); token == t && (t != ErrorToken ==> Rest() == rest)
    {
      hide TokenAt, SkipSpace;
      ghost var from := ptr;
      NoSpaceYet(from);
      while Space(Byte(ptr))
        invariant Valid() && tmp.buf == old(tmp.buf) && from <= ptr &&
                  SkipSpace(data[from..]) == ptr - from + SkipSpace(Rest())
        decreases |data| - ptr
      {
        SpaceSkipped(ptr);
        ptr := ptr + 1;
      }
      SpaceSkipped(ptr);
      assert data[from..][ptr - from..] == Rest();
      token := TokenHere();
    }

    lemma {:induction false} NoSpaceYet(p: nat)
      requires p <= |data|
      ensures SkipSpace(data[p..]) == p - p + SkipSpace(data[p..])
    {
    }

    lemma {:induction false} SpaceSkipped(p: nat)
      requires p <= |data|
      ensures SkipSpace(data[p..]) == if Space(At(data, p)) then 1 + SkipSpace(data[p + 1..]) else 0
    {
    }

    /** The part of `json_next_token` behind the white space. */
    method TokenHere() returns (token: Token)
      requires Valid() && !Space(Byte(ptr))
      modifies this`ptr, tmp`length, tmp.buf
      ensures Valid() && tmp.buf == old(tmp.buf) && ptr >= old(ptr)
      ensures var (t, n) := TokenAt(cfg, old(Rest())); token == t && (t != ErrorToken ==> Rest() == old(Rest())[n..])
    {
      RestAt(ptr);
      var ch := Byte(ptr);
      assert forall n :: 0 <= n <= |Rest()| ==> Rest()[n..] == data[ptr + n..];
      if ch == 0 {
        assert Rest()[0..] == Rest();
        return EndToken;
      }
      match ch {
        case 0x7B => token := ObjBegin;
        case 0x7D => token := ObjEnd;
        case 0x5B => token := ArrBegin;
        case 0x5D => token := ArrEnd;
        case 0x2C => token := CommaToken;
        case 0x3A => token := ColonToken;
        case _ =>
          token := NextLongToken();
          return;
      }
      ptr := ptr + 1;
    }

    /** `json_process_value`. */
    method ProcessValue(token: Token) returns (r: Result<Json>)
      requires Valid() && currentDepth >= 0
      modifies this`ptr, this`currentDepth, tmp`length, tmp.buf
      ensures Valid() && tmp.buf == old(tmp.buf) && ptr >= old(ptr)
      ensures Parsed(ParseValue(cfg, token, old(Rest()), old(currentDepth)), r, Rest())
      ensures r.Ok? ==> currentDepth == old(currentDepth)
      decreases Left(token, Rest()), 0
    {
      match token
      case StringToken(s) => r := Ok(Str(s));
      case IntegerToken(n) => r := Ok(Int(n));
      case BooleanToken(b) => r := Ok(Bool(b));
      case NullToken => r := Ok(Null);
      case ObjBegin => r := ParseObjectContext();
      case ArrBegin => r := ParseArrayContext();
      case _ => r := Err;
    }

    /** `json_decode_descend`. */
    method Descend() returns (ok: bool)
      modifies this`currentDepth
      ensures currentDepth == old(currentDepth) + 1 && ok == (currentDepth <= cfg.decodeMaxDepth)
    {
      currentDepth := currentDepth + 1;
      ok := currentDepth <= cfg.decodeMaxDepth;
    }

    /** The loop of `json_parse_array_context`, from the first token inside the brackets. */
    method ParseItemList(first: Token) returns (r: Result<Json>)
      requires Valid() && currentDepth >= 1
      modifies this`ptr, this`currentDepth, tmp`length, tmp.buf
      ensures Valid() && tmp.buf == old(tmp.buf) && ptr >= old(ptr)
      ensures Parsed(ParseItems(cfg, first, old(Rest()), old(currentDepth), []), r, Rest())
      ensures r.Ok? ==> currentDepth == old(currentDepth) - 1
      decreases Left(first, Rest()), 1
    {
      hide JsonSpec.NextToken, ParseValue, ParseItems;
      var token, vs: seq<Json> := first, [];
      ghost var spec := ParseItems(cfg, token, Rest(), currentDepth, vs);
      NoValue(cfg, Rest(), currentDepth);
      while true
        invariant Valid() && tmp.buf == old(tmp.buf) && ptr >= old(ptr) && currentDepth == old(currentDepth)
        invariant Left(token, Rest()) <= Left(first, old(Rest()))
        invariant if token == ErrorToken then spec == Err else ParseItems(cfg, token, Rest(), currentDepth, vs) == spec
        decreases Left(token, Rest())
      {
        ItemFirst(cfg, token, Rest(), currentDepth, vs);
        var v := ProcessValue(token);
        if v == Err {
          return Err;
        }
        vs := vs + [v.value];
        token := NextToken();
        if token == ArrEnd {
          currentDepth := currentDepth - 1;
          return Ok(Arr(vs));
        }
        if token != CommaToken {
          return Err;
        }
        NoValue(cfg, JsonSpec.NextToken(cfg, Rest()).1, currentDepth);
        token := NextToken();
      }
    }

    /** `json_parse_array_context`. */
    method ParseArrayContext() returns (r: Result<Json>)
      requires Valid() && currentDepth >= 0
      modifies this`ptr, this`currentDepth, tmp`length, tmp.buf
      ensures Valid() && tmp.buf == old(tmp.buf) && ptr >= old(ptr)
      ensures Parsed(ParseValue(cfg, ArrBegin, old(Rest()), old(currentDepth)), r, Rest())
      ensures r.Ok? ==> currentDepth == old(currentDepth)
      decreases |Rest()|, 2
    {
      hide JsonSpec.NextToken, ParseValue, ParseItems;
      TableOpens(cfg, Rest(), currentDepth);
      var ok := Descend();
      if !ok {
        return Err;
      }
      ghost var all := Rest();
      var token := NextToken();
      if token == ArrEnd {
        currentDepth := currentDepth - 1;
        return Ok(Arr([]));
      }
      NoValue(cfg, JsonSpec.NextToken(cfg, all).1, currentDepth);
      NoValue(cfg, Rest(), currentDepth);
      r := ParseItemList(token);
    }

    /** A key whose token has been read, the colon and the value. */
    method ParseEntry(token: Token) returns (r: Result<Entry>)
      requires Valid() && currentDepth >= 0
      modifies this`ptr, this`currentDepth, tmp`length, tmp.buf
      ensures Valid() && tmp.buf == old(tmp.buf) && ptr >= old(ptr)
      ensures var spec := EntryAt(cfg, token, old(Rest()), old(currentDepth));
              if spec.Ok? then r == Ok(spec.value.0) && Rest() == spec.value.1 && currentDepth == old(currentDepth)
                else r == Err
      decreases |Rest()|, 1
    {
      hide JsonSpec.NextToken, ParseValue;
      if !token.StringToken? {
        return Err;
      }
      var colon := NextToken();
      if colon != ColonToken {
        return Err;
      }
      NoValue(cfg, JsonSpec.NextToken(cfg, Rest()).1, currentDepth);
      var t := NextToken();
      NoValue(cfg, Rest(), currentDepth);
      var v := ProcessValue(t);
      r := if v == Err then Err else Ok(Entry(token.s, v.value));
    }

    /** The loop of `json_parse_object_context`, from the first token inside the braces. */
    method ParseEntryList(first: Token) returns (r: Result<Json>)
      requires Valid() && currentDepth >= 1
      modifies this`ptr, this`currentDepth, tmp`length, tmp.buf
      ensures Valid() && tmp.buf == old(tmp.buf) && ptr >= old(ptr)
      ensures Parsed(ParseEntries(cfg, first, old(Rest()), old(currentDepth), []), r, Rest())
      ensures r.Ok? ==> currentDepth == old(currentDepth) - 1
      decreases |Rest()|, 2
    {
      hide JsonSpec.NextToken, EntryAt, ParseEntries, ParseValue, Put;
      var token, es: seq<Entry> := first, [];
      ghost var spec := ParseEntries(cfg, token, Rest(), currentDepth, es);
      NoValue(cfg, Rest(), currentDepth);
      while true
        invariant Valid() && tmp.buf == old(tmp.buf) && ptr >= old(ptr) && currentDepth == old(currentDepth)
        invariant |Rest()| <= |old(Rest())|
        invariant if token == ErrorToken then spec == Err
                  else ParseEntries(cfg, token, Rest(), currentDepth, es) == spec
        decreases |Rest()|
      {
        EntryFirst(cfg, token, Rest(), currentDepth, es);
        var e := ParseEntry(token);
        if e == Err {
          return Err;
        }
        es := Put(es, e.value.key, e.value.value);
        token := NextToken();
        if token == ObjEnd {
          currentDepth := currentDepth - 1;
          return Ok(Obj(es));
        }
        if token != CommaToken {
          return Err;
        }
        NoValue(cfg, JsonSpec.NextToken(cfg, Rest()).1, currentDepth);
        token := NextToken();
      }
    }

    /** `json_parse_object_context`: a key that comes again replaces the value. */
    method ParseObjectContext() returns (r: Result<Json>)
      requires Valid() && currentDepth >= 0
      modifies this`ptr, this`currentDepth, tmp`length, tmp.buf
      ensures Valid() && tmp.buf == old(tmp.buf) && ptr >= old(ptr)
      ensures Parsed(ParseValue(cfg, ObjBegin, old(Rest()), old(currentDepth)), r, Rest())
      ensures r.Ok? ==> currentDepth == old(currentDepth)
      decreases |Rest()|, 3
    {
      hide JsonSpec.NextToken, EntryAt, ParseEntries, ParseValue, Put;
      TableOpens(cfg, Rest(), currentDepth);
      var ok := Descend();
      if !ok {
        return Err;
      }
      ghost var all := Rest();
      var token := NextToken();
      if token == ObjEnd {
        currentDepth := currentDepth - 1;
        return Ok(Obj([]));
      }
      NoValue(cfg, JsonSpec.NextToken(cfg, all).1, currentDepth);
      NoValue(cfg, Rest(), currentDepth);
      r := ParseEntryList(token);
    }

    /** `json_decode`, from the set-up on. */
    method Decode() returns (r: Result<Json>)
      requires Valid() && ptr == 0 && currentDepth == 0
      modifies this`ptr, this`currentDepth, tmp`length, tmp.buf
      ensures r == Parse(cfg, data)
    {
      hide JsonSpec.NextToken, ParseValue;
      assert data[0..] == data;
      if |data| >= 2 && (Byte(0) == 0 || Byte(1) == 0) {
        return Err;
      }
      NoValue(cfg, JsonSpec.NextToken(cfg, data).1, 0);
      var token := NextToken();
      NoValue(cfg, Rest(), 0);
      var v := ProcessValue(token);
      if v == Err {
        return Err;
      }
      token := NextToken();
      r := if token != EndToken then Err else v;
    }
  }

  lemma {:induction false} UnescapeReads(s: seq<byte>, i: nat)
    requires Unescape(At(s, i)) != 0
    ensures i < |s|
  {
  }

  lemma {:induction false} ScannedError(a: seq<byte>, n: nat)
    ensures Scanned(a, n, Err) == Err
  {
  }

  lemma {:induction false} ScanEnds(s: seq<byte>)
    ensures At(s, 0) == 0 ==> ScanString(s) == Err
    ensures At(s, 0) == QUOTE ==> ScanString(s) == Ok(([], 1))
  {
  }

  /** Printing into any buffer and parsing the text gives the value back, an empty array as an empty object, or fails
      where one of the two refuses the depth. */
  method EncodeThenDecode(json: StrBuf, cfg: Config, v: Json) returns (r: Result<Json>)
    requires json.Valid() && JsonRoundTrip.Valid(v)
    modifies json, json.buf
    ensures r == if Depth(v) <= cfg.encodeMaxDepth && Depth(v) <= cfg.decodeMaxDepth then Ok(JsonRoundTrip.Normal(v))
            else Err
  {
    hide Print, Parse, Depth, JsonRoundTrip.Normal, JsonRoundTrip.Valid, IntsFit;
    JsonRoundTrip.ValidFits(v);
    JsonRoundTrip.JsonBack(cfg, v);
    var text := JsonEncode.Encode(json, cfg, v);
    if text == Err {
      return Err;
    }
    var parser := new Parser(text.value, cfg);
    r := parser.Decode();
  }
}
