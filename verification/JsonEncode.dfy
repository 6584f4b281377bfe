/** The printer of lua_cjson.c, writing to a string buffer. */
module JsonEncode {
  import opened Basics
  import opened JsonBuffer
  import opened JsonSpec

  /** `FPCONV_G_FMT_BUFSIZE`. */
  const NUMBER_SIZE: nat := 32

  // ----- what has been written of a sequence -----

  lemma {:induction false} EscapeOneMore(s: seq<byte>, i: nat)
    requires i < |s|
    ensures EscapeAll(s[..i + 1]) == EscapeAll(s[..i]) + Escape(s[i])
    decreases i
  {
    hide Escape;
    assert s[..i + 1][0] == s[0];
    if i == 0 {
      assert s[..1][1..] == [];
      assert EscapeAll([]) == [] && EscapeAll(s[..0]) == [];
      assert Escape(s[0]) + [] == [] + Escape(s[0]);
    } else {
      EscapeOneMore(s[1..], i - 1);
      assert s[..i + 1][1..] == s[1..][..i] && s[..i][1..] == s[1..][..i - 1] && s[..i][0] == s[0];
      Regroup(Escape(s[0]), EscapeAll(s[1..][..i - 1]), Escape(s[i]));
    }
  }

  /** A comma in front of everything but the first. */
  function Separator(i: nat): seq<byte> {
    if i == 0 then [] else [COMMA]
  }

  lemma {:induction false} CommasApart(first: seq<byte>, others: seq<byte>, last: seq<byte>)
    ensures first + [COMMA] + (others + [COMMA] + last) == first + [COMMA] + others + [COMMA] + last
  {
  }

  lemma {:induction false} OneMoreItem(vs: seq<Json>, i: nat)
    requires i < |vs|
    ensures PrintItems(vs[..i + 1]) == PrintItems(vs[..i]) + Separator(i) + Print(vs[i])
    ensures ItemsDepth(vs[..i + 1]) == Max(ItemsDepth(vs[..i]), Depth(vs[i]))
    decreases i
  {
    hide Print, Depth;
    assert vs[..i + 1][0] == vs[0];
    if i == 0 {
      assert vs[..1][1..] == [] && vs[..0] == [];
      assert [] + Separator(0) + Print(vs[0]) == Print(vs[0]);
    } else {
      OneMoreItem(vs[1..], i - 1);
      assert vs[..i + 1][1..] == vs[1..][..i] && vs[..i][1..] == vs[1..][..i - 1] && vs[..i][0] == vs[0];
      var first, others, last := Print(vs[0]), PrintItems(vs[1..][..i - 1]), Print(vs[i]);
      if i == 1 {
        assert vs[1..][..0] == [] && [] + Separator(0) + last == last;
      } else {
        CommasApart(first, others, last);
      }
    }
  }

  lemma {:induction false} OneMoreEntry(es: seq<Entry>, i: nat)
    requires i < |es|
    ensures PrintEntries(es[..i + 1]) == PrintEntries(es[..i]) + Separator(i) + PrintEntry(es[i])
    ensures EntriesDepth(es[..i + 1]) == Max(EntriesDepth(es[..i]), Depth(es[i].value))
    decreases i
  {
    hide PrintEntry, Depth;
    assert es[..i + 1][0] == es[0];
    if i == 0 {
      assert es[..1][1..] == [] && es[..0] == [];
      assert [] + Separator(0) + PrintEntry(es[0]) == PrintEntry(es[0]);
    } else {
      OneMoreEntry(es[1..], i - 1);
      assert es[..i + 1][1..] == es[1..][..i] && es[..i][1..] == es[1..][..i - 1] && es[..i][0] == es[0];
      var first, others, last := PrintEntry(es[0]), PrintEntries(es[1..][..i - 1]), PrintEntry(es[i]);
      if i == 1 {
        assert es[1..][..0] == [] && [] + Separator(0) + last == last;
      } else {
        CommasApart(first, others, last);
      }
    }
  }

  lemma {:induction false} DeepItem(vs: seq<Json>, i: nat)
    requires i < |vs|
    ensures Depth(vs[i]) <= ItemsDepth(vs)
    decreases i
  {
    if i > 0 {
      DeepItem(vs[1..], i - 1);
    }
  }

  lemma {:induction false} DeepEntry(es: seq<Entry>, i: nat)
    requires i < |es|
    ensures Depth(es[i].value) <= EntriesDepth(es)
    decreases i
  {
    if i > 0 {
      DeepEntry(es[1..], i - 1);
    }
  }

  /** `k` digits are enough. */
  lemma {:induction false} DecimalLength(n: nat, bound: nat, k: nat)
    requires n < bound && bound == PowerOfTen(k) && k > 0
    ensures |Decimal(n)| <= k
    decreases k
  {
    if n >= 10 {
      DecimalLength(n / 10, PowerOfTen(k - 1), k - 1);
    }
  }

  function PowerOfTen(k: nat): nat {
    if k == 0 then 1 else 10 * PowerOfTen(k - 1)
  }

  /** A 64-bit integer and its sign take at most 20 characters. */
  lemma {:induction false} IntLength(n: int)
    requires -LLONG_MAX - 1 <= n <= LLONG_MAX
    ensures |PrintInt(n)| <= 20
  {
    assert PowerOfTen(4) == 1_0000 && PowerOfTen(8) == 1_0000_0000 && PowerOfTen(12) == 1_0000_0000_0000;
    assert PowerOfTen(16) == 1_0000_0000_0000_0000 && PowerOfTen(19) == 1000_0000_0000_0000_0000;
    DecimalLength(if n < 0 then -n else n, PowerOfTen(19), 19);
  }

  // ----- printing -----

  /** `json_append_string`: room is made once for the worst case, and then nothing moves. */
  method AppendText(json: StrBuf, s: seq<byte>)
    requires json.Valid()
    modifies json, json.buf
    ensures json.Valid() && (json.buf == old(json.buf) || fresh(json.buf))
    ensures json.Contents() == old(json.Contents()) + PrintString(s)
  {
    hide Escape, EscapeAll;
    json.EnsureEmptyLength(|s| * 6 + 2);
    ghost var room := json.buf;
    json.AppendCharUnsafe(QUOTE);
    var i := 0;
    assert s[..0] == [] && EscapeAll(s[..0]) == [] by { NoEscapes(); }
    while i < |s|
      invariant 0 <= i <= |s| && json.Valid() && json.buf == room
      invariant json.EmptyLength() >= 6 * (|s| - i) + 1
      invariant json.Contents() == old(json.Contents()) + ([QUOTE] + EscapeAll(s[..i]))
    {
      ghost var done := json.Contents();
      var esc := Escape(s[i]);
      if esc != [s[i]] {
        json.AppendString(esc);
      } else {
        json.AppendCharUnsafe(s[i]);
      }
      EscapeOneMore(s, i);
      Regroup([QUOTE], EscapeAll(s[..i]), esc);
      Regroup(old(json.Contents()), [QUOTE] + EscapeAll(s[..i]), esc);
      i := i + 1;
    }
    assert s[..i] == s;
    json.AppendCharUnsafe(QUOTE);
    Regroup(old(json.Contents()), [QUOTE] + EscapeAll(s), [QUOTE]);
  }

  lemma {:induction false} NoEscapes()
    ensures EscapeAll([]) == []
  {
  }

  /** `json_append_number`, for an integer: the text and its terminating zero fit the room made for them. */
  method AppendInteger(json: StrBuf, n: int)
    requires json.Valid() && -LLONG_MAX - 1 <= n <= LLONG_MAX
    modifies json, json.buf
    ensures json.Valid() && (json.buf == old(json.buf) || fresh(json.buf))
    ensures json.Contents() == old(json.Contents()) + PrintInt(n)
  {
    json.EnsureEmptyLength(NUMBER_SIZE);
    IntLength(n);
    json.AppendMemUnsafe(PrintInt(n));
    json.EnsureNull();
  }

  /** What a buffer holds after a value nested that deep was printed, or nothing is known. */
  ghost predicate Printed(cfg: Config, before: seq<byte>, after: seq<byte>, text: seq<byte>, depth: nat, ok: bool) {
    ok == (depth <= cfg.encodeMaxDepth) && (ok ==> after == before + text)
  }

  /** `json_append_data`: false is the error for tables nested too deep. */
  method AppendData(json: StrBuf, cfg: Config, v: Json, depth: nat) returns (ok: bool)
    requires json.Valid() && IntsFit(v) && depth <= cfg.encodeMaxDepth
    modifies json, json.buf
    ensures json.Valid() && (json.buf == old(json.buf) || fresh(json.buf))
    ensures Printed(cfg, old(json.Contents()), json.Contents(), Print(v), depth + Depth(v), ok)
    decreases v, 0
  {
    hide PrintItems, PrintEntries, ItemsDepth, EntriesDepth, PrintInt, PrintString;
    ok := true;
    match v
    case Null => json.AppendMem(NULL_TEXT);
    case Bool(b) =>
      if b {
        json.AppendMem(TRUE_TEXT);
      } else {
        json.AppendMem(FALSE_TEXT);
      }
    case Int(n) => AppendInteger(json, n);
    case Str(s) => AppendText(json, s);
    case Arr(vs) =>
      if depth + 1 > cfg.encodeMaxDepth {
        return false;
      }
      if |vs| > 0 {
        ok := AppendArray(json, cfg, vs, depth + 1);
      } else {
        ok := AppendObject(json, cfg, [], depth + 1);
        EmptyTable();
      }
    case Obj(es) =>
      if depth + 1 > cfg.encodeMaxDepth {
        return false;
      }
      ok := AppendObject(json, cfg, es, depth + 1);
  }

  lemma {:induction false} EmptyTable()
    ensures [LBRACE] + PrintEntries([]) + [RBRACE] == [LBRACE, RBRACE] && EntriesDepth([]) == 0 && ItemsDepth([]) == 0
  {
  }

  /** The comma in front of an item, and the item. */
  method AppendItem(json: StrBuf, cfg: Config, v: Json, depth: nat, i: nat) returns (ok: bool)
    requires json.Valid() && IntsFit(v) && depth <= cfg.encodeMaxDepth
    modifies json, json.buf
    ensures json.Valid() && (json.buf == old(json.buf) || fresh(json.buf))
    ensures Printed(cfg, old(json.Contents()), json.Contents(), Separator(i) + Print(v), depth + Depth(v), ok)
    decreases v, 1
  {
    hide Print, Depth, IntsFit;
    if i > 0 {
      json.AppendChar(COMMA);
    } else {
      assert json.Contents() == json.Contents() + Separator(i);
    }
    ok := AppendData(json, cfg, v, depth);
    Regroup(old(json.Contents()), Separator(i), Print(v));
  }

  /** `json_append_array`. */
  method AppendArray(json: StrBuf, cfg: Config, vs: seq<Json>, depth: nat) returns (ok: bool)
    requires json.Valid() && ItemsFit(vs) && depth <= cfg.encodeMaxDepth
    modifies json, json.buf
    ensures json.Valid() && (json.buf == old(json.buf) || fresh(json.buf))
    ensures Printed(cfg, old(json.Contents()), json.Contents(), [LBRACKET] + PrintItems(vs) + [RBRACKET],
                    depth + ItemsDepth(vs), ok)
    decreases vs
  {
    hide Print, Depth, IntsFit, PrintItems, ItemsDepth;
    json.AppendChar(LBRACKET);
    ghost var before := json.Contents();
    var i := 0;
    NoItems(vs, before);
    while i < |vs|
      invariant 0 <= i <= |vs| && json.Valid() && (json.buf == old(json.buf) || fresh(json.buf))
      invariant json.Contents() == before + PrintItems(vs[..i]) && depth + ItemsDepth(vs[..i]) <= cfg.encodeMaxDepth
    {
      OneMoreItem(vs, i);
      ok := AppendItem(json, cfg, vs[i], depth, i);
      if !ok {
        DeepItem(vs, i);
        return;
      }
      Regroup(PrintItems(vs[..i]), Separator(i), Print(vs[i]));
      Regroup(before, PrintItems(vs[..i]), Separator(i) + Print(vs[i]));
      i := i + 1;
    }
    assert vs[..i] == vs;
    json.AppendChar(RBRACKET);
    Bracketed(old(json.Contents()), LBRACKET, PrintItems(vs), RBRACKET);
    ok := true;
  }

  lemma {:induction false} Bracketed(s: seq<byte>, open: byte, body: seq<byte>, close: byte)
    ensures s + [open] + body + [close] == s + ([open] + body + [close])
  {
  }

  lemma {:induction false} NoItems(vs: seq<Json>, before: seq<byte>)
    ensures PrintItems(vs[..0]) == [] && ItemsDepth(vs[..0]) == 0 && before + [] == before
  {
  }

  lemma {:induction false} NoEntries(es: seq<Entry>, before: seq<byte>)
    ensures PrintEntries(es[..0]) == [] && EntriesDepth(es[..0]) == 0 && before + [] == before
  {
  }

  /** The comma in front of an entry, its key and its value. */
  method AppendEntry(json: StrBuf, cfg: Config, e: Entry, depth: nat, i: nat) returns (ok: bool)
    requires json.Valid() && IntsFit(e.value) && depth <= cfg.encodeMaxDepth
    modifies json, json.buf
    ensures json.Valid() && (json.buf == old(json.buf) || fresh(json.buf))
    ensures Printed(cfg, old(json.Contents()), json.Contents(), Separator(i) + PrintEntry(e), depth + Depth(e.value),
                    ok)
    decreases e, 1
  {
    hide Print, Depth, IntsFit, PrintString;
    if i > 0 {
      json.AppendChar(COMMA);
    } else {
      assert json.Contents() == json.Contents() + Separator(i);
    }
    ghost var before := json.Contents();
    AppendText(json, e.key);
    json.AppendChar(COLON);
    ok := AppendData(json, cfg, e.value, depth);
    Regroup(before, PrintString(e.key), [COLON]);
    Regroup(before, PrintString(e.key) + [COLON], Print(e.value));
    Regroup(old(json.Contents()), Separator(i), PrintEntry(e));
  }

  /** `json_append_object`, for a table whose keys are strings. */
  method AppendObject(json: StrBuf, cfg: Config, es: seq<Entry>, depth: nat) returns (ok: bool)
    requires json.Valid() && EntriesFit(es) && depth <= cfg.encodeMaxDepth
    modifies json, json.buf
    ensures json.Valid() && (json.buf == old(json.buf) || fresh(json.buf))
    ensures Printed(cfg, old(json.Contents()), json.Contents(), [LBRACE] + PrintEntries(es) + [RBRACE],
                    depth + EntriesDepth(es), ok)
    decreases es
  {
    hide PrintEntry, Depth, IntsFit, PrintEntries, EntriesDepth;
    json.AppendChar(LBRACE);
    ghost var before := json.Contents();
    var i := 0;
    NoEntries(es, before);
    while i < |es|
      invariant 0 <= i <= |es| && json.Valid() && (json.buf == old(json.buf) || fresh(json.buf))
      invariant json.Contents() == before + PrintEntries(es[..i]) && depth + EntriesDepth(es[..i]) <= cfg.encodeMaxDepth
    {
      OneMoreEntry(es, i);
      ok := AppendEntry(json, cfg, es[i], depth, i);
      if !ok {
        DeepEntry(es, i);
        return;
      }
      Regroup(PrintEntries(es[..i]), Separator(i), PrintEntry(es[i]));
      Regroup(before, PrintEntries(es[..i]), Separator(i) + PrintEntry(es[i]));
      i := i + 1;
    }
    assert es[..i] == es;
    json.AppendChar(RBRACE);
    Bracketed(old(json.Contents()), LBRACE, PrintEntries(es), RBRACE);
    ok := true;
  }

  /** `json_encode`, with the buffer that is kept between calls. */
  method Encode(json: StrBuf, cfg: Config, v: Json) returns (r: Result<seq<byte>>)
    requires json.Valid() && IntsFit(v)
    modifies json, json.buf
    ensures json.Valid() && r == if Depth(v) <= cfg.encodeMaxDepth then Ok(Print(v)) else Err
  {
    hide Print, Depth, IntsFit;
    json.Reset();
    var ok := AppendData(json, cfg, v, 0);
    r := if ok then Ok(json.buf[..json.length]) else Err;
    assert ok ==> [] + Print(v) == Print(v);
  }
}
