/** Parsing what was printed gives the value back, an empty array as an empty object. */
module JsonRoundTrip {
  import opened Basics
  import opened JsonSpec

  lemma {:induction false} NothingAfter<T>(s: seq<T>)
    ensures s + [] == s
  {
  }

  // ----- strings -----

  lemma {:induction false} EscapeBack(c: byte, rest: seq<byte>)
    ensures ScanString(Escape(c) + rest) == Scanned([c], |Escape(c)|, ScanString(rest))
  {
    var e, s := Escape(c), Escape(c) + rest;
    assert s[|e|..] == rest;
    if |e| == 6 {
      assert Hex4(s, 2) == c by {
        assert HexValue(HexDigit(c / 16)) == c / 16 && HexValue(HexDigit(c % 16)) == c % 16;
      }
      assert UnicodeEscape(s) == Ok(([c], 6));
    }
  }

  lemma {:induction false} EscapesBack(s: seq<byte>, rest: seq<byte>)
    ensures ScanString(EscapeAll(s) + rest) == Scanned(s, |EscapeAll(s)|, ScanString(rest))
  {
    hide ScanString, Escape;
    if s == [] {
      assert [] + rest == rest;
      ScannedTwice([], [], 0, 0, ScanString(rest));
    } else {
      var e, others := Escape(s[0]), EscapeAll(s[1..]);
      Regroup(e, others, rest);
      EscapeBack(s[0], others + rest);
      EscapesBack(s[1..], rest);
      ScannedTwice([s[0]], s[1..], |e|, |others|, ScanString(rest));
      assert [s[0]] + s[1..] == s;
    }
  }

  lemma {:induction false} PrintedScans(s: seq<byte>, rest: seq<byte>)
    ensures ScanString(EscapeAll(s) + ([QUOTE] + rest)) == Ok((s, |EscapeAll(s)| + 1))
  {
    EscapesBack(s, [QUOTE] + rest);
    hide EscapeAll;
    assert ([QUOTE] + rest)[0] == QUOTE;
    assert ScanString([QUOTE] + rest) == Ok(([], 1));
    NothingAfter(s);
  }

  /** A printed string is one token. */
  lemma {:induction false} StringBack(cfg: Config, s: seq<byte>, rest: seq<byte>)
    ensures NextToken(cfg, PrintString(s) + rest) == (StringToken(s), rest)
  {
    hide ScanString, EscapeAll, InvalidNumber, NumberAt, StartsWith;
    var body, t := EscapeAll(s), PrintString(s) + rest;
    PrintedScans(s, rest);
    assert t[1..] == body + ([QUOTE] + rest);
    assert t[|body| + 2..] == rest;
    assert t[0] == QUOTE && t[0..] == t;
  }

  // ----- numbers -----

  /** No digit, no letter and no point: what may come after a printed number. */
  predicate EndsNumber(c: byte) {
    c == COMMA || c == RBRACKET || c == RBRACE || c == 0
  }

  lemma {:induction false} DecimalBack(n: nat, rest: seq<byte>)
    ensures ReadDigits(Decimal(n) + rest, 10, 0) ==
            (ReadDigits(rest, 10, n).0, |Decimal(n)| + ReadDigits(rest, 10, n).1)
  {
    if n < 10 {
      var s := Decimal(n) + rest;
      assert s[0] == ZERO + n && s[1..] == rest;
      assert DigitValue(s[0], 10) == n;
    } else {
      var d := [ZERO + n % 10];
      Regroup(Decimal(n / 10), d, rest);
      DecimalBack(n / 10, d + rest);
      assert (d + rest)[0] == ZERO + n % 10 && (d + rest)[1..] == rest;
      assert DigitValue(ZERO + n % 10, 10) == n % 10;
      assert More(n / 10, 10, n % 10) == n;
    }
  }

  lemma {:induction false} NoMoreDigits(rest: seq<byte>, base: nat, n: nat)
    requires EndsNumber(At(rest, 0))
    ensures ReadDigits(rest, base, n) == (n, 0)
  {
  }

  /** The first digit of a number is zero for zero only. */
  lemma {:induction false} FirstDigit(n: nat)
    ensures ZERO <= Decimal(n)[0] <= 0x39 && (Decimal(n)[0] == ZERO <==> n == 0) && Decimal(0) == [ZERO]
  {
    if n >= 10 {
      FirstDigit(n / 10);
    }
  }

  lemma {:induction false} ZeroDigit(rest: seq<byte>)
    requires EndsNumber(At(rest, 0))
    ensures ReadDigits([ZERO] + rest, 8, 0) == (0, 1)
  {
    assert ([ZERO] + rest)[1..] == rest;
    NoMoreDigits(rest, 8, 0);
  }

  lemma {:induction false} IntRead(n: int, rest: seq<byte>)
    requires -LLONG_MAX - 1 <= n <= LLONG_MAX && EndsNumber(At(rest, 0))
    ensures StrToLL(PrintInt(n) + rest) == (n, |PrintInt(n)|)
  {
    hide ReadDigits, Decimal;
    var s, m := PrintInt(n) + rest, if n < 0 then -n else n;
    var i := if n < 0 then 1 else 0;
    FirstDigit(m);
    DecimalBack(m, rest);
    NoMoreDigits(rest, 10, m);
    var d := Decimal(m);
    assert s[i..] == d + rest && At(s, i) == d[0];
    if m == 0 {
      ZeroDigit(rest);
      assert At(s, 1) == At(rest, 0);
    }
  }

  /** How a printed number starts and ends. */
  lemma {:induction false} IntStarts(n: int, rest: seq<byte>)
    requires EndsNumber(At(rest, 0))
    ensures var s := PrintInt(n) + rest;
            && (At(s, 0) == MINUS || ZERO <= At(s, 0) <= 0x39) && !InvalidNumber(s)
            && At(s, |PrintInt(n)|) == At(rest, 0) && s[|PrintInt(n)|..] == rest
  {
    hide Decimal;
    var s, m := PrintInt(n) + rest, if n < 0 then -n else n;
    var i := if n < 0 then 1 else 0;
    FirstDigit(m);
    assert s[i] == Decimal(m)[0];
    assert m == 0 ==> At(s, i + 1) == At(rest, 0);
    assert s[|PrintInt(n)|..] == rest;
  }

  /** A printed number is one token when it is not followed by something that could belong to it. */
  lemma {:induction false} IntBack(cfg: Config, n: int, rest: seq<byte>)
    requires -LLONG_MAX - 1 <= n <= LLONG_MAX && EndsNumber(At(rest, 0))
    ensures NextToken(cfg, PrintInt(n) + rest) == (IntegerToken(n), rest)
  {
    hide StrToLL, PrintInt, InvalidNumber, ScanString, StartsWith;
    var s := PrintInt(n) + rest;
    IntRead(n, rest);
    IntStarts(n, rest);
    assert s[0..] == s;
  }

  // ----- words and punctuation -----

  /** A token that needs no look at what comes after it. */
  function Mark(c: byte): Token {
    if c == LBRACE then ObjBegin else if c == RBRACE then ObjEnd else if c == LBRACKET then ArrBegin
    else if c == RBRACKET then ArrEnd else if c == COMMA then CommaToken else ColonToken
  }

  lemma {:induction false} MarkBack(cfg: Config, c: byte, rest: seq<byte>)
    requires c == LBRACE || c == RBRACE || c == LBRACKET || c == RBRACKET || c == COMMA || c == COLON
    ensures NextToken(cfg, [c] + rest) == (Mark(c), rest)
  {
    var s := [c] + rest;
    assert s[0..] == s && s[1..] == rest;
  }

  lemma {:induction false} WordBack(cfg: Config, rest: seq<byte>)
    ensures NextToken(cfg, TRUE_TEXT + rest) == (BooleanToken(true), rest)
    ensures NextToken(cfg, FALSE_TEXT + rest) == (BooleanToken(false), rest)
    ensures NextToken(cfg, NULL_TEXT + rest) == (NullToken, rest)
  {
    var t, f, n := TRUE_TEXT + rest, FALSE_TEXT + rest, NULL_TEXT + rest;
    assert t[..4] == TRUE_TEXT && t[4..] == rest && t[0..] == t;
    assert f[..5] == FALSE_TEXT && f[5..] == rest && f[0..] == f;
    assert n[..4] == NULL_TEXT && n[4..] == rest && n[0..] == n;
    assert f[..4] != TRUE_TEXT && n[..4] != TRUE_TEXT && n[0] != FALSE_TEXT[0];
  }

  // ----- values -----

  /** What comes back: an empty table is an empty object. */
  function Normal(v: Json): Json
    decreases v
  {
    match v
    case Arr(vs) => if vs == [] then Obj([]) else Arr(NormalItems(vs))
    case Obj(es) => Obj(NormalEntries(es))
    case _ => v
  }

  function NormalItems(vs: seq<Json>): seq<Json>
    decreases vs
  {
    if vs == [] then [] else [Normal(vs[0])] + NormalItems(vs[1..])
  }

  function NormalEntry(e: Entry): Entry
    decreases e
  {
    Entry(e.key, Normal(e.value))
  }

  function NormalEntries(es: seq<Entry>): seq<Entry>
    decreases es
  {
    if es == [] then [] else [NormalEntry(es[0])] + NormalEntries(es[1..])
  }

  ghost predicate HasKey(es: seq<Entry>, key: seq<byte>) {
    exists i :: 0 <= i < |es| && es[i].key == key
  }

  /** Integers have 64 bits, and a table has one value for a key. */
  ghost predicate Valid(v: Json)
    decreases v
  {
    match v
    case Int(n) => -LLONG_MAX - 1 <= n <= LLONG_MAX
    case Arr(vs) => ValidItems(vs)
    case Obj(es) => ValidEntries(es)
    case _ => true
  }

  ghost predicate ValidItems(vs: seq<Json>)
    decreases vs
  {
    vs == [] || (Valid(vs[0]) && ValidItems(vs[1..]))
  }

  ghost predicate ValidEntry(e: Entry)
    decreases e
  {
    Valid(e.value)
  }

  ghost predicate ValidEntries(es: seq<Entry>)
    decreases es
  {
    es == [] || (ValidEntry(es[0]) && !HasKey(es[1..], es[0].key) && ValidEntries(es[1..]))
  }

  lemma {:induction false} ValidFits(v: Json)
    requires Valid(v)
    ensures IntsFit(v)
    decreases v, 1
  {
    match v
    case Arr(vs) => ItemsValid(vs);
    case Obj(es) => EntriesValid(es);
    case _ =>
  }

  lemma {:induction false} ItemsValid(vs: seq<Json>)
    requires ValidItems(vs)
    ensures ItemsFit(vs)
    decreases vs, 0
  {
    if vs != [] {
      ValidFits(vs[0]);
      ItemsValid(vs[1..]);
      assert forall i :: 1 <= i < |vs| ==> vs[i] == vs[1..][i - 1];
    }
  }

  lemma {:induction false} EntriesValid(es: seq<Entry>)
    requires ValidEntries(es)
    ensures EntriesFit(es)
    decreases es, 0
  {
    if es != [] {
      ValidFits(es[0].value);
      EntriesValid(es[1..]);
      assert forall i :: 1 <= i < |es| ==> es[i] == es[1..][i - 1];
    }
  }

  lemma {:induction false} PutNew(es: seq<Entry>, key: seq<byte>, v: Json)
    requires !HasKey(es, key)
    ensures Put(es, key, v) == es + [Entry(key, v)]
  {
    if es != [] {
      assert es[0].key != key;
      forall i | 0 <= i < |es[1..]| ensures es[1..][i].key != key {
        assert es[1..][i] == es[i + 1];
      }
      PutNew(es[1..], key, v);
    }
  }

  /** What follows a value inside a table, and at the end. */
  function ParseNext(cfg: Config, s: seq<byte>, depth: nat): Result<(Json, seq<byte>)> {
    var (t, rest) := NextToken(cfg, s);
    ParseValue(cfg, t, rest, depth)
  }

  /** What a value nested that deep makes of the parse: it is refused when the limit is passed. */
  function Within(cfg: Config, depth: nat, v: Json, rest: seq<byte>): Result<(Json, seq<byte>)> {
    if depth <= cfg.decodeMaxDepth then Ok((v, rest)) else Err
  }

  lemma {:induction false} ValueBack(cfg: Config, v: Json, rest: seq<byte>, depth: nat)
    requires Valid(v) && EndsNumber(At(rest, 0)) && depth <= cfg.decodeMaxDepth
    ensures ParseNext(cfg, Print(v) + rest, depth) == Within(cfg, depth + Depth(v), Normal(v), rest)
    decreases v, 0
  {
    hide NextToken, ParseItems, ParseEntries, PrintItems, PrintEntries, PrintInt, PrintString, NormalItems,
         NormalEntries;
    hide ItemsDepth, EntriesDepth, ValidItems, ValidEntries;
    match v
    case Null => WordBack(cfg, rest);
    case Bool(b) => WordBack(cfg, rest);
    case Int(n) => IntBack(cfg, n, rest);
    case Str(s) => StringBack(cfg, s, rest);
    case Arr(vs) =>
      if vs == [] {
        EmptyBack(cfg, rest, depth);
        NoEntries();
      } else {
        if depth + 1 <= cfg.decodeMaxDepth {
          ItemsBack(cfg, vs, rest, depth + 1, []);
          assert [] + NormalItems(vs) == NormalItems(vs);
        }
        ArrayOpens(cfg, PrintItems(vs), rest, depth, Within(cfg, depth + Depth(v), Normal(v), rest));
      }
    case Obj(es) =>
      if es == [] {
        EmptyBack(cfg, rest, depth);
        NoEntries();
      } else {
        if depth + 1 <= cfg.decodeMaxDepth {
          EntriesBack(cfg, es, rest, depth + 1, []);
          assert [] + NormalEntries(es) == NormalEntries(es);
        }
        ObjectOpens(cfg, PrintEntries(es), rest, depth, Within(cfg, depth + Depth(v), Normal(v), rest));
      }
  }

  lemma {:induction false} EmptyBack(cfg: Config, rest: seq<byte>, depth: nat)
    ensures ParseNext(cfg, [LBRACE, RBRACE] + rest, depth) == Within(cfg, depth + 1, Obj([]), rest)
    ensures [LBRACE] + [] + [RBRACE] == [LBRACE, RBRACE]
  {
    hide NextToken;
    assert [LBRACE, RBRACE] + rest == [LBRACE] + ([RBRACE] + rest);
    MarkBack(cfg, LBRACE, [RBRACE] + rest);
    MarkBack(cfg, RBRACE, rest);
  }

  lemma {:induction false} NoEntries()
    ensures PrintEntries([]) == [] && NormalEntries([]) == [] && EntriesDepth([]) == 0 && ItemsDepth([]) == 0
  {
  }

  lemma {:induction false} ArrayOpens(cfg: Config, items: seq<byte>, rest: seq<byte>, depth: nat,
                                      r: Result<(Json, seq<byte>)>)
    requires var (t, s) := NextToken(cfg, items + ([RBRACKET] + rest));
             depth + 1 <= cfg.decodeMaxDepth ==> t != ArrEnd && ParseItems(cfg, t, s, depth + 1, []) == r
    requires depth + 1 > cfg.decodeMaxDepth ==> r == Err
    ensures ParseNext(cfg, [LBRACKET] + items + [RBRACKET] + rest, depth) == r
  {
    hide NextToken, ParseItems;
    assert [LBRACKET] + items + [RBRACKET] + rest == [LBRACKET] + (items + ([RBRACKET] + rest));
    MarkBack(cfg, LBRACKET, items + ([RBRACKET] + rest));
  }

  lemma {:induction false} ObjectOpens(cfg: Config, entries: seq<byte>, rest: seq<byte>, depth: nat,
                                      r: Result<(Json, seq<byte>)>)
    requires var (t, s) := NextToken(cfg, entries + ([RBRACE] + rest));
             depth + 1 <= cfg.decodeMaxDepth ==> t != ObjEnd && ParseEntries(cfg, t, s, depth + 1, []) == r
    requires depth + 1 > cfg.decodeMaxDepth ==> r == Err
    ensures ParseNext(cfg, [LBRACE] + entries + [RBRACE] + rest, depth) == r
  {
    hide NextToken, ParseEntries;
    assert [LBRACE] + entries + [RBRACE] + rest == [LBRACE] + (entries + ([RBRACE] + rest));
    MarkBack(cfg, LBRACE, entries + ([RBRACE] + rest));
  }

  /** How the parser goes on after one item. */
  lemma {:induction false} ItemTaken(cfg: Config, s: seq<byte>, depth: nat, acc: seq<Json>, v: Json, deep: nat,
                                     after: seq<byte>)
    requires ParseNext(cfg, s, depth) == Within(cfg, deep, v, after)
    ensures var (t, s1) := NextToken(cfg, s);
            var (u, s2) := NextToken(cfg, after);
            ParseItems(cfg, t, s1, depth, acc) ==
            if deep > cfg.decodeMaxDepth then Err
            else if u == ArrEnd then Ok((Arr(acc + [v]), s2))
            else if u != CommaToken then Err
            else ParseItems(cfg, NextToken(cfg, s2).0, NextToken(cfg, s2).1, depth, acc + [v])
  {
    hide NextToken;
  }

  /** The first item, and what is said of it and the rest. */
  lemma {:induction false} FirstItem(vs: seq<Json>)
    requires vs != [] && ValidItems(vs)
    ensures Valid(vs[0]) && ValidItems(vs[1..])
    ensures NormalItems(vs) == [Normal(vs[0])] + NormalItems(vs[1..]) && NormalItems([]) == []
    ensures ItemsDepth(vs) == Max(Depth(vs[0]), ItemsDepth(vs[1..])) && ItemsDepth([]) == 0
    ensures PrintItems(vs) == if |vs| == 1 then Print(vs[0]) else Print(vs[0]) + [COMMA] + PrintItems(vs[1..])
  {
    hide Normal, Depth, Print, Valid;
  }

  /** A printed value does not start like the end of an array. */
  lemma {:induction false} NotAnEnd(cfg: Config, v: Json, rest: seq<byte>)
    requires Valid(v) && EndsNumber(At(rest, 0))
    ensures NextToken(cfg, Print(v) + rest).0 != ArrEnd
  {
    hide NextToken, PrintItems, PrintEntries, PrintInt, PrintString;
    match v
    case Int(n) => IntBack(cfg, n, rest);
    case Str(s) => StringBack(cfg, s, rest);
    case Arr(vs) =>
      var s := if vs == [] then [RBRACE] else PrintItems(vs) + [RBRACKET];
      var c := if vs == [] then LBRACE else LBRACKET;
      assert Print(v) + rest == [c] + (s + rest);
      MarkBack(cfg, c, s + rest);
    case Obj(es) =>
      assert Print(v) + rest == [LBRACE] + (PrintEntries(es) + [RBRACE] + rest);
      MarkBack(cfg, LBRACE, PrintEntries(es) + [RBRACE] + rest);
    case _ => WordBack(cfg, rest);
  }

  lemma {:induction false} ItemBack(cfg: Config, v: Json, depth: nat, acc: seq<Json>, after: seq<byte>)
    requires Valid(v) && EndsNumber(At(after, 0)) && depth <= cfg.decodeMaxDepth
    ensures var (t, s) := NextToken(cfg, Print(v) + after);
            var (u, s') := NextToken(cfg, after);
            && t != ArrEnd
            && ParseItems(cfg, t, s, depth, acc) ==
               if depth + Depth(v) > cfg.decodeMaxDepth then Err
               else if u == ArrEnd then Ok((Arr(acc + [Normal(v)]), s'))
               else if u != CommaToken then Err
               else ParseItems(cfg, NextToken(cfg, s').0, NextToken(cfg, s').1, depth, acc + [Normal(v)])
    decreases v, 1
  {
    hide NextToken, ParseNext, ParseItems, Print, Depth, Normal, Valid;
    ValueBack(cfg, v, after, depth);
    NotAnEnd(cfg, v, after);
    ItemTaken(cfg, Print(v) + after, depth, acc, Normal(v), depth + Depth(v), after);
  }

  /** The last item, with the end of the array behind it. */
  lemma {:induction false} LastItem(cfg: Config, v: Json, rest: seq<byte>, depth: nat, acc: seq<Json>)
    requires Valid(v) && depth <= cfg.decodeMaxDepth
    ensures var (t, s) := NextToken(cfg, Print(v) + ([RBRACKET] + rest));
            && t != ArrEnd
            && ParseItems(cfg, t, s, depth, acc) == Within(cfg, depth + Depth(v), Arr(acc + [Normal(v)]), rest)
    decreases v, 2
  {
    hide NextToken, ParseItems, Print, Depth, Normal, Valid;
    ItemBack(cfg, v, depth, acc, [RBRACKET] + rest);
    MarkBack(cfg, RBRACKET, rest);
  }

  /** An item with a comma behind it and what comes after. */
  lemma {:induction false} CommaItem(cfg: Config, v: Json, others: seq<byte>, depth: nat, acc: seq<Json>)
    requires Valid(v) && depth <= cfg.decodeMaxDepth
    ensures var (t, s) := NextToken(cfg, Print(v) + ([COMMA] + others));
            var (u, s') := NextToken(cfg, others);
            && t != ArrEnd
            && ParseItems(cfg, t, s, depth, acc) ==
               if depth + Depth(v) > cfg.decodeMaxDepth then Err else ParseItems(cfg, u, s', depth, acc + [Normal(v)])
    decreases v, 2
  {
    hide NextToken, ParseItems, Print, Depth, Normal, Valid;
    ItemBack(cfg, v, depth, acc, [COMMA] + others);
    MarkBack(cfg, COMMA, others);
  }

  /** `first`, a comma, and the others with what comes after them. */
  lemma {:induction false} CommaBetween(first: seq<byte>, others: seq<byte>, after: seq<byte>)
    ensures first + [COMMA] + others + after == first + ([COMMA] + (others + after))
  {
    Regroup(first + [COMMA], others, after);
    Regroup(first, [COMMA], others + after);
  }

  lemma {:induction false} ItemsBack(cfg: Config, vs: seq<Json>, rest: seq<byte>, depth: nat, acc: seq<Json>)
    requires vs != [] && ValidItems(vs) && depth <= cfg.decodeMaxDepth
    ensures var (t, s) := NextToken(cfg, PrintItems(vs) + ([RBRACKET] + rest));
            && t != ArrEnd
            && ParseItems(cfg, t, s, depth, acc) ==
               Within(cfg, depth + ItemsDepth(vs), Arr(acc + NormalItems(vs)), rest)
    decreases vs, 3
  {
    hide NextToken, ParseItems, Print, PrintItems, Depth, ItemsDepth, NormalItems, Normal, Valid, ValidItems;
    FirstItem(vs);
    var v, more := Normal(vs[0]), NormalItems(vs[1..]);
    if |vs| == 1 {
      LastItem(cfg, vs[0], rest, depth, acc);
      assert vs[1..] == [];
      NothingAfter([v]);
    } else {
      CommaBetween(Print(vs[0]), PrintItems(vs[1..]), [RBRACKET] + rest);
      CommaItem(cfg, vs[0], PrintItems(vs[1..]) + ([RBRACKET] + rest), depth, acc);
      ItemsBack(cfg, vs[1..], rest, depth, acc + [v]);
      Regroup(acc, [v], more);
    }
  }

  /** One entry and what follows it. */
  lemma {:induction false} EntryBack(cfg: Config, e: Entry, after: seq<byte>, depth: nat)
    requires ValidEntry(e) && EndsNumber(At(after, 0)) && depth <= cfg.decodeMaxDepth
    ensures var value := Print(e.value) + after;
            && NextToken(cfg, PrintEntry(e) + after) == (StringToken(e.key), [COLON] + value)
            && NextToken(cfg, [COLON] + value) == (ColonToken, value)
            && ParseNext(cfg, value, depth) == Within(cfg, depth + Depth(e.value), Normal(e.value), after)
    decreases e, 0
  {
    ValueBack(cfg, e.value, after, depth);
    hide NextToken, ParseValue, Print, Depth, PrintString;
    var value := Print(e.value) + after;
    MarkBack(cfg, COLON, value);
    Regroup(PrintString(e.key) + [COLON], Print(e.value), after);
    Regroup(PrintString(e.key), [COLON], value);
    StringBack(cfg, e.key, [COLON] + value);
  }

  /** The first key is not among those that come after. */
  lemma {:induction false} KeysApart(es: seq<Entry>, acc: seq<Entry>, e: Entry)
    requires es != [] && !HasKey(es[1..], es[0].key) && e.key == es[0].key
    requires forall i :: 0 <= i < |es| ==> !HasKey(acc, es[i].key)
    ensures forall i :: 0 <= i < |es[1..]| ==> !HasKey(acc + [e], es[1..][i].key)
  {
    forall i | 0 <= i < |es[1..]| ensures !HasKey(acc + [e], es[1..][i].key) {
      var key := es[1..][i].key;
      assert key != es[0].key && es[1..][i] == es[i + 1];
      forall j | 0 <= j < |acc + [e]| ensures (acc + [e])[j].key != key {
        if j < |acc| {
          assert (acc + [e])[j] == acc[j] && !HasKey(acc, es[i + 1].key);
        }
      }
    }
  }

  /** How the parser goes on after one entry. */
  lemma {:induction false} EntryTaken(cfg: Config, key: seq<byte>, value: seq<byte>, depth: nat, acc: seq<Entry>,
                                      v: Json, deep: nat, after: seq<byte>)
    requires NextToken(cfg, [COLON] + value) == (ColonToken, value)
    requires ParseNext(cfg, value, depth) == Within(cfg, deep, v, after)
    requires !HasKey(acc, key)
    ensures var (t, s) := NextToken(cfg, after);
            ParseEntries(cfg, StringToken(key), [COLON] + value, depth, acc) ==
            if deep > cfg.decodeMaxDepth then Err
            else if t == ObjEnd then Ok((Obj(acc + [Entry(key, v)]), s))
            else if t != CommaToken then Err
            else ParseEntries(cfg, NextToken(cfg, s).0, NextToken(cfg, s).1, depth, acc + [Entry(key, v)])
  {
    hide NextToken, ParseValue, HasKey, Put;
    PutNew(acc, key, v);
  }

  /** The first entry, and what is said of it and the rest. */
  lemma {:induction false} FirstEntry(es: seq<Entry>)
    requires es != [] && ValidEntries(es)
    ensures ValidEntry(es[0]) && ValidEntries(es[1..]) && !HasKey(es[1..], es[0].key)
    ensures NormalEntries(es) == [NormalEntry(es[0])] + NormalEntries(es[1..]) && NormalEntries([]) == []
    ensures EntriesDepth(es) == Max(Depth(es[0].value), EntriesDepth(es[1..])) && EntriesDepth([]) == 0
    ensures PrintEntries(es) == if |es| == 1 then PrintEntry(es[0])
            else PrintEntry(es[0]) + [COMMA] + PrintEntries(es[1..])
  {
    hide NormalEntry, Depth, PrintEntry, ValidEntry, HasKey;
  }

  lemma {:induction false} EntryParsed(cfg: Config, e: Entry, depth: nat, acc: seq<Entry>, after: seq<byte>)
    requires ValidEntry(e) && EndsNumber(At(after, 0)) && depth <= cfg.decodeMaxDepth && !HasKey(acc, e.key)
    ensures var (t, s) := NextToken(cfg, PrintEntry(e) + after);
            var (u, s') := NextToken(cfg, after);
            && t != ObjEnd
            && ParseEntries(cfg, t, s, depth, acc) ==
               if depth + Depth(e.value) > cfg.decodeMaxDepth then Err
               else if u == ObjEnd then Ok((Obj(acc + [NormalEntry(e)]), s'))
               else if u != CommaToken then Err
               else ParseEntries(cfg, NextToken(cfg, s').0, NextToken(cfg, s').1, depth, acc + [NormalEntry(e)])
    decreases e, 1
  {
    hide NextToken, ParseNext, ParseEntries, PrintEntry, Print, Depth, Normal, HasKey, Valid;
    EntryBack(cfg, e, after, depth);
    EntryTaken(cfg, e.key, Print(e.value) + after, depth, acc, Normal(e.value), depth + Depth(e.value), after);
  }

  /** The last entry, with the end of the object behind it. */
  lemma {:induction false} LastEntry(cfg: Config, e: Entry, rest: seq<byte>, depth: nat, acc: seq<Entry>)
    requires ValidEntry(e) && depth <= cfg.decodeMaxDepth && !HasKey(acc, e.key)
    ensures var (t, s) := NextToken(cfg, PrintEntry(e) + ([RBRACE] + rest));
            && t != ObjEnd
            && ParseEntries(cfg, t, s, depth, acc) ==
               Within(cfg, depth + Depth(e.value), Obj(acc + [NormalEntry(e)]), rest)
    decreases e, 2
  {
    hide NextToken, ParseEntries, PrintEntry, Depth, NormalEntry, ValidEntry, HasKey;
    EntryParsed(cfg, e, depth, acc, [RBRACE] + rest);
    MarkBack(cfg, RBRACE, rest);
  }

  /** An entry with a comma behind it and what comes after. */
  lemma {:induction false} CommaEntry(cfg: Config, e: Entry, others: seq<byte>, depth: nat, acc: seq<Entry>)
    requires ValidEntry(e) && depth <= cfg.decodeMaxDepth && !HasKey(acc, e.key)
    ensures var (t, s) := NextToken(cfg, PrintEntry(e) + ([COMMA] + others));
            var (u, s') := NextToken(cfg, others);
            && t != ObjEnd
            && ParseEntries(cfg, t, s, depth, acc) ==
               if depth + Depth(e.value) > cfg.decodeMaxDepth then Err
               else ParseEntries(cfg, u, s', depth, acc + [NormalEntry(e)])
    decreases e, 2
  {
    hide NextToken, ParseEntries, PrintEntry, Depth, NormalEntry, ValidEntry, HasKey;
    EntryParsed(cfg, e, depth, acc, [COMMA] + others);
    MarkBack(cfg, COMMA, others);
  }

  lemma {:induction false} EntriesBack(cfg: Config, es: seq<Entry>, rest: seq<byte>, depth: nat, acc: seq<Entry>)
    requires es != [] && ValidEntries(es) && depth <= cfg.decodeMaxDepth
    requires forall i :: 0 <= i < |es| ==> !HasKey(acc, es[i].key)
    ensures var (t, s) := NextToken(cfg, PrintEntries(es) + ([RBRACE] + rest));
            && t != ObjEnd
            && ParseEntries(cfg, t, s, depth, acc) ==
               Within(cfg, depth + EntriesDepth(es), Obj(acc + NormalEntries(es)), rest)
    decreases es, 3
  {
    hide NextToken, ParseEntries, PrintEntry, PrintEntries, Depth, EntriesDepth, HasKey, NormalEntries, ValidEntry,
         ValidEntries;
    FirstEntry(es);
    var n, more := NormalEntry(es[0]), NormalEntries(es[1..]);
    KeysApart(es, acc, n);
    if |es| == 1 {
      LastEntry(cfg, es[0], rest, depth, acc);
      assert es[1..] == [];
      NothingAfter([n]);
    } else {
      CommaBetween(PrintEntry(es[0]), PrintEntries(es[1..]), [RBRACE] + rest);
      CommaEntry(cfg, es[0], PrintEntries(es[1..]) + ([RBRACE] + rest), depth, acc);
      EntriesBack(cfg, es[1..], rest, depth, acc + [n]);
      Regroup(acc, [n], more);
    }
  }

  // ----- printed text holds no zero byte -----

  predicate NoZero(s: seq<byte>) {
    forall i :: 0 <= i < |s| ==> s[i] != 0
  }

  lemma {:induction false} EscapesNoZero(s: seq<byte>)
    ensures NoZero(EscapeAll(s)) && NoZero(PrintString(s))
  {
    if s != [] {
      EscapesNoZero(s[1..]);
    }
  }

  lemma {:induction false} DecimalNoZero(n: nat)
    ensures NoZero(Decimal(n))
  {
    if n >= 10 {
      DecimalNoZero(n / 10);
    }
  }

  lemma {:induction false} PrintNoZero(v: Json)
    ensures NoZero(Print(v))
    decreases v
  {
    match v
    case Int(n) => DecimalNoZero(if n < 0 then -n else n);
    case Str(s) => EscapesNoZero(s);
    case Arr(vs) => ItemsNoZero(vs);
    case Obj(es) => EntriesNoZero(es);
    case _ =>
  }

  lemma {:induction false} ItemsNoZero(vs: seq<Json>)
    ensures NoZero(PrintItems(vs))
    decreases vs
  {
    if vs != [] {
      PrintNoZero(vs[0]);
      ItemsNoZero(vs[1..]);
    }
  }

  lemma {:induction false} EntryNoZero(e: Entry)
    ensures NoZero(PrintEntry(e))
    decreases e
  {
    EscapesNoZero(e.key);
    PrintNoZero(e.value);
  }

  lemma {:induction false} EntriesNoZero(es: seq<Entry>)
    ensures NoZero(PrintEntries(es))
    decreases es
  {
    if es != [] {
      EntryNoZero(es[0]);
      EntriesNoZero(es[1..]);
    }
  }

  /** A printed value parses exactly when it is nested no deeper than the limit, and then comes back, an empty array as
      an empty object. */
  lemma {:induction false} JsonBack(cfg: Config, v: Json)
    requires Valid(v)
    ensures Parse(cfg, Print(v)) == if Depth(v) <= cfg.decodeMaxDepth then Ok(Normal(v)) else Err
  {
    hide Print, ParseValue, NextToken, Depth, Normal, Valid;
    ValueBack(cfg, v, [], 0);
    NothingAfter(Print(v));
    PrintNoZero(v);
    EndOfText(cfg);
  }

  lemma {:induction false} EndOfText(cfg: Config)
    ensures NextToken(cfg, []) == (EndToken, [])
  {
    hide ScanString, InvalidNumber, NumberAt, StartsWith;
    var s: seq<byte> := [];
    assert SkipSpace(s) == 0 && s[0..] == [] && At(s, 0) == 0;
  }
}
