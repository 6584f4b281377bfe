/** Machine words, serial-number comparison and the wire format of ikcp.c. */
module KcpWire {
  import opened Basics

  const HALF: int := 0x8000_0000

  const CMD_PUSH: byte := 81
  const CMD_ACK: byte := 82
  const CMD_WASK: byte := 83
  const CMD_WINS: byte := 84
  const OVERHEAD: int := 24

  /** A payload: its size fits the `len` field. */
  type payload = s: seq<byte> | |s| < 0x1_0000_0000

  /** Unsigned 32-bit addition, written without `%` to keep it linear. */
  function Add(a: u32, b: u32): u32 {
    if a + b < WORD then a + b else a + b - WORD
  }

  /** Unsigned 32-bit subtraction: how far `sn` lies ahead of `base` on the ring of words. */
  function Off(sn: u32, base: u32): u32 {
    if sn >= base then sn - base else sn - base + WORD
  }

  /** `_itimediff`: the difference of two words read as a signed 32-bit number. */
  function Diff(later: u32, earlier: u32): int {
    var d := Off(later, earlier);
    if d < HALF then d else d - WORD
  }

  /** Adding a signed amount to a word. */
  function AddSigned(a: u32, d: int): u32
    requires -WORD < d < WORD
  {
    if a + d < 0 then a + d + WORD else if a + d < WORD then a + d else a + d - WORD
  }

  /** A counter word after `n` increments. */
  function Bump(x: u32, n: nat): u32 {
    if n == 0 then x else Add(Bump(x, n - 1), 1)
  }

  /** Unsigned 32-bit multiplication as repeated addition, which keeps it linear. */
  function Times(a: u32, b: u32): u32 {
    if b == 0 then 0 else Add(Times(a, b - 1), a)
  }

  /** Unsigned division as repeated subtraction. */
  function Quotient(a: u32, b: u32): (q: u32)
    requires b > 0
    ensures q <= a
  {
    if a < b then 0 else 1 + Quotient(a - b, b)
  }

  lemma {:induction false} TimesIsProduct(a: u32, b: u32)
    ensures Times(a, b) == a * b % WORD
  {
    if b > 0 {
      TimesIsProduct(a, b - 1);
      assert a * b == a * (b - 1) + a;
      ModStep(a * (b - 1), a);
    }
  }

  lemma {:induction false} ModStep(x: int, a: u32)
    ensures (x + a) % WORD == (if x % WORD + a < WORD then x % WORD + a else x % WORD + a - WORD)
  {
  }

  /** The quotient is the integral part. */
  lemma {:induction false} QuotientIsFloor(a: u32, b: u32)
    requires b > 0
    ensures b * Quotient(a, b) <= a < b * Quotient(a, b) + b
  {
    if a >= b {
      QuotientIsFloor(a - b, b);
      assert b * (1 + Quotient(a - b, b)) == b + b * Quotient(a - b, b);
    }
  }

  /** Reduction to 32 bits of an arithmetic result. */
  function Wrap(x: int): u32 {
    x % WORD
  }

  function Min(a: u32, b: u32): u32 {
    if a <= b then a else b
  }

  function Max(a: u32, b: u32): u32 {
    if a >= b then a else b
  }

  /** A segment as it travels: the 24 header bytes and the payload (whose size is the `len` field). */
  datatype Packet = Packet(conv: u32, cmd: byte, frg: byte, wnd: u16, ts: u32, sn: u32, una: u32, data: payload)

  predicate KnownCommand(cmd: byte) {
    cmd == CMD_PUSH || cmd == CMD_ACK || cmd == CMD_WASK || cmd == CMD_WINS
  }

  // ----- little-endian words -----

  function Encode16(w: u16): (s: seq<byte>)
    ensures |s| == 2
  {
    [w % 256, w / 256]
  }

  function Decode16(s: seq<byte>): u16
    requires |s| >= 2
  {
    s[0] as int + s[1] as int * 256
  }

  function Encode32(l: u32): (s: seq<byte>)
    ensures |s| == 4
  {
    var l1 := l / 256;
    var l2 := l1 / 256;
    [l % 256, l1 % 256, l2 % 256, l2 / 256]
  }

  function Decode32(s: seq<byte>): u32
    requires |s| >= 4
  {
    s[0] as int + s[1] as int * 256 + s[2] as int * 0x1_0000 + s[3] as int * 0x100_0000
  }

  lemma {:induction false} Word16RoundTrip(w: u16, rest: seq<byte>)
    ensures Decode16(Encode16(w) + rest) == w
    ensures (Encode16(w) + rest)[2..] == rest
  {
  }

  lemma {:induction false} Word32RoundTrip(l: u32, rest: seq<byte>)
    ensures Decode32(Encode32(l) + rest) == l
    ensures (Encode32(l) + rest)[4..] == rest
  {
    var s, l1 := Encode32(l) + rest, l / 256;
    var l2 := l1 / 256;
    assert s[0] == l % 256 && s[1] == l1 % 256 && s[2] == l2 % 256 && s[3] == l2 / 256;
    assert l == l1 * 256 + l % 256 && l1 == l2 * 256 + l1 % 256 && l2 == l2 / 256 * 256 + l2 % 256;
  }

  // ----- segments -----

  /** `ikcp_encode_seg` with `rest` behind it: the 24 header bytes, `len` included. */
  function Header(p: Packet, rest: seq<byte>): (s: seq<byte>)
    ensures |s| == OVERHEAD + |rest|
  {
    Encode32(p.conv) + ([p.cmd, p.frg] + (Encode16(p.wnd) +
      (Encode32(p.ts) + (Encode32(p.sn) + (Encode32(p.una) + (Encode32(|p.data|) + rest))))))
  }

  /** A whole segment on the wire. */
  function Encode(p: Packet): (s: seq<byte>)
    ensures |s| == OVERHEAD + |p.data|
  {
    Header(p, p.data)
  }

  /** The fields the receiving loop reads at the start of `s`, the announced payload length, and what follows. */
  function DecodeHeader(s: seq<byte>): (r: (Packet, u32, seq<byte>))
    requires |s| >= OVERHEAD
    ensures |r.2| == |s| - OVERHEAD
  {
    var s4 := s[4..];
    var s6 := s4[2..];
    var s8 := s6[2..];
    var s12 := s8[4..];
    var s16 := s12[4..];
    var s20 := s16[4..];
    (Packet(Decode32(s), s4[0], s4[1], Decode16(s6), Decode32(s8), Decode32(s12), Decode32(s16), []),
     Decode32(s20), s20[4..])
  }

  lemma {:induction false} HeaderRoundTrip(p: Packet, rest: seq<byte>)
    ensures DecodeHeader(Header(p, rest)) == (p.(data := []), |p.data|, rest)
  {
    var s20 := Encode32(|p.data|) + rest;
    var s16 := Encode32(p.una) + s20;
    var s12 := Encode32(p.sn) + s16;
    var s8 := Encode32(p.ts) + s12;
    var s6 := Encode16(p.wnd) + s8;
    var s4 := [p.cmd, p.frg] + s6;
    Word32RoundTrip(p.conv, s4);
    assert s4[2..] == s6;
    Word16RoundTrip(p.wnd, s8);
    Word32RoundTrip(p.ts, s12);
    Word32RoundTrip(p.sn, s16);
    Word32RoundTrip(p.una, s20);
    Word32RoundTrip(|p.data|, rest);
  }

  lemma {:induction false} HeaderAssoc(p: Packet, x: seq<byte>, y: seq<byte>)
    ensures Header(p, x) + y == Header(p, x + y)
  {
    var t6 := Encode32(|p.data|) + x;
    var t5 := Encode32(p.una) + t6;
    var t4 := Encode32(p.sn) + t5;
    var t3 := Encode32(p.ts) + t4;
    var t2 := Encode16(p.wnd) + t3;
    var t1 := [p.cmd, p.frg] + t2;
    assert t6 + y == Encode32(|p.data|) + (x + y);
    assert t5 + y == Encode32(p.una) + (t6 + y);
    assert t4 + y == Encode32(p.sn) + (t5 + y);
    assert t3 + y == Encode32(p.ts) + (t4 + y);
    assert t2 + y == Encode16(p.wnd) + (t3 + y);
    assert t1 + y == [p.cmd, p.frg] + (t2 + y);
    assert Header(p, x) + y == Encode32(p.conv) + (t1 + y);
  }

  // ----- datagrams -----

  /** What the receiving loop makes of a datagram: the segments it acts on, then how it stops. */
  datatype Parsed = Parsed(packets: seq<Packet>, code: int)

  /** The loop of `ikcp_input`, acting on nothing: the segments before the first error, and the error. */
  function Parse(conv: u32, data: seq<byte>): (r: Parsed)
    ensures -3 <= r.code <= 0
    decreases |data|
  {
    if |data| < OVERHEAD then
      Parsed([], 0)
    else
      var (head, len, rest) := DecodeHeader(data);
      if head.conv != conv then
        Parsed([], -1)
      else if |rest| < len || len >= HALF then
        Parsed([], -2)
      else if !KnownCommand(head.cmd) then
        Parsed([], -3)
      else
        var tail := Parse(conv, rest[len..]);
        Parsed([head.(data := rest[..len])] + tail.packets, tail.code)
  }

  /** A segment an endpoint of conversation `conv` may put on the wire. */
  predicate Sendable(conv: u32, p: Packet) {
    p.conv == conv && KnownCommand(p.cmd) && |p.data| < HALF
  }

  predicate AllSendable(conv: u32, ps: seq<Packet>) {
    forall i :: 0 <= i < |ps| ==> Sendable(conv, ps[i])
  }

  function EncodeAll(ps: seq<Packet>): (s: seq<byte>)
    ensures s == [] <==> ps == []
  {
    if ps == [] then [] else Encode(ps[0]) + EncodeAll(ps[1..])
  }

  lemma {:induction false} ParseStep(conv: u32, p: Packet, rest: seq<byte>)
    requires Sendable(conv, p)
    ensures Parse(conv, Encode(p) + rest) ==
            Parsed([p] + Parse(conv, rest).packets, Parse(conv, rest).code)
  {
    HeaderAssoc(p, p.data, rest);
    HeaderRoundTrip(p, p.data + rest);
    assert (p.data + rest)[..|p.data|] == p.data;
    assert (p.data + rest)[|p.data|..] == rest;
  }

  /** Reading back a datagram made of whole segments yields exactly those segments. */
  lemma {:induction false} ParseRoundTrip(conv: u32, ps: seq<Packet>)
    requires AllSendable(conv, ps)
    ensures Parse(conv, EncodeAll(ps)) == Parsed(ps, 0)
  {
    if ps != [] {
      var rest := ps[1..];
      ParseRoundTrip(conv, rest);
      ParseStep(conv, ps[0], EncodeAll(rest));
      assert EncodeAll(ps) == Encode(ps[0]) + EncodeAll(rest);
      assert [ps[0]] + rest == ps;
    }
  }

  lemma {:induction false} EncodeAllAppend(ps: seq<Packet>, p: Packet)
    ensures EncodeAll(ps + [p]) == EncodeAll(ps) + Encode(p)
  {
    if ps == [] {
      assert ps + [p] == [p];
      assert EncodeAll([p]) == Encode(p) + EncodeAll([]);
    } else {
      assert (ps + [p])[0] == ps[0] && (ps + [p])[1..] == ps[1..] + [p];
      EncodeAllAppend(ps[1..], p);
    }
  }
}
