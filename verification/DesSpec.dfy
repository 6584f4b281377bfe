/** The DES block cipher of lua-crypt.c on two 32-bit halves: with the subkeys reversed it undoes itself. */
module DesSpec {

  /** The eight S-boxes, looked up by six bits. Nothing below depends on what they hold. */
  datatype Boxes = Boxes(sb1: bv32 -> bv32, sb2: bv32 -> bv32, sb3: bv32 -> bv32, sb4: bv32 -> bv32,
                         sb5: bv32 -> bv32, sb6: bv32 -> bv32, sb7: bv32 -> bv32, sb8: bv32 -> bv32)

  /** Two halves, in the order in which a macro names them. */
  datatype Halves = Halves(x: bv32, y: bv32)

  /** One line of the permutation macros: the bits of `mask` are exchanged between `x`, shifted, and `y`. */
  function Swap4(h: Halves): Halves {
    var t := ((h.x >> 4) ^ h.y) & 0x0F0F0F0F;
    Halves(h.x ^ (t << 4), h.y ^ t)
  }

  function Swap16(h: Halves): Halves {
    var t := ((h.x >> 16) ^ h.y) & 0x0000FFFF;
    Halves(h.x ^ (t << 16), h.y ^ t)
  }

  function Swap2(h: Halves): Halves {
    var t := ((h.y >> 2) ^ h.x) & 0x33333333;
    Halves(h.x ^ t, h.y ^ (t << 2))
  }

  function Swap8(h: Halves): Halves {
    var t := ((h.y >> 8) ^ h.x) & 0x00FF00FF;
    Halves(h.x ^ t, h.y ^ (t << 8))
  }

  function SwapOdd(h: Halves): Halves {
    var t := (h.x ^ h.y) & 0xAAAAAAAA;
    Halves(h.x ^ t, h.y ^ t)
  }

  function Left(n: bv32): bv32 {
    (n << 1) | (n >> 31)
  }

  function Right(n: bv32): bv32 {
    (n << 31) | (n >> 1)
  }

  /** `DES_IP`. */
  function InitialPermutation(h: Halves): Halves {
    var h1 := Swap8(Swap2(Swap16(Swap4(h))));
    var h2 := SwapOdd(h1.(y := Left(h1.y)));
    h2.(x := Left(h2.x))
  }

  /** `DES_FP`. */
  function FinalPermutation(h: Halves): Halves {
    var h1 := SwapOdd(h.(x := Right(h.x)));
    Swap4(Swap16(Swap2(Swap8(h1.(y := Right(h1.y))))))
  }

  /** Each exchange undoes itself. */
  lemma {:induction false} Swap4Back(h: Halves)
    ensures Swap4(Swap4(h)) == h
  {
  }

  lemma {:induction false} Swap16Back(h: Halves)
    ensures Swap16(Swap16(h)) == h
  {
  }

  lemma {:induction false} Swap2Back(h: Halves)
    ensures Swap2(Swap2(h)) == h
  {
  }

  lemma {:induction false} Swap8Back(h: Halves)
    ensures Swap8(Swap8(h)) == h
  {
  }

  lemma {:induction false} SwapOddBack(h: Halves)
    ensures SwapOdd(SwapOdd(h)) == h
  {
  }

  lemma {:induction false} TurnsBack(n: bv32)
    ensures Right(Left(n)) == n && Left(Right(n)) == n
  {
  }

  /** The permutations undo each other, step by step from the middle. */
  lemma {:induction false} FinalUndoesInitial(h: Halves)
    ensures FinalPermutation(InitialPermutation(h)) == h
  {
    hide Swap4, Swap16, Swap2, Swap8, SwapOdd, Left, Right;
    var a := Swap4(h);
    var b := Swap16(a);
    var c := Swap2(b);
    var d := Swap8(c);
    var e := SwapOdd(d.(y := Left(d.y)));
    TurnsBack(e.x);
    SwapOddBack(d.(y := Left(d.y)));
    TurnsBack(d.y);
    Swap8Back(c);
    Swap2Back(b);
    Swap16Back(a);
    Swap4Back(h);
  }

  lemma {:induction false} InitialUndoesFinal(h: Halves)
    ensures InitialPermutation(FinalPermutation(h)) == h
  {
    hide Swap4, Swap16, Swap2, Swap8, SwapOdd, Left, Right;
    var a := h.(x := Right(h.x));
    var b := SwapOdd(a);
    var c := b.(y := Right(b.y));
    var d := Swap8(c);
    var e := Swap2(d);
    var f := Swap16(e);
    Swap4Back(f);
    Swap16Back(e);
    Swap2Back(d);
    Swap8Back(c);
    TurnsBack(b.y);
    SwapOddBack(a);
    TurnsBack(h.x);
  }

  /** The two permutations undo each other. */
  lemma {:induction false} PermutationsInvert(h: Halves)
    ensures FinalPermutation(InitialPermutation(h)) == h && InitialPermutation(FinalPermutation(h)) == h
  {
    hide InitialPermutation, FinalPermutation;
    FinalUndoesInitial(h);
    InitialUndoesFinal(h);
  }

  /** What `DES_ROUND` puts into its second half, from its first and two subkeys. */
  function Mixed(sb: Boxes, x: bv32, k0: bv32, k1: bv32): bv32 {
    var t := k0 ^ x;
    var u := k1 ^ ((x << 28) | (x >> 4));
    sb.sb8(t & 0x3F) ^ sb.sb6((t >> 8) & 0x3F) ^ sb.sb4((t >> 16) & 0x3F) ^ sb.sb2((t >> 24) & 0x3F) ^
    (sb.sb7(u & 0x3F) ^ sb.sb5((u >> 8) & 0x3F) ^ sb.sb3((u >> 16) & 0x3F) ^ sb.sb1((u >> 24) & 0x3F))
  }

  type Subkeys = sk: seq<bv32> | |sk| == 32 witness seq(32, _ => 0)

  /** The two subkeys of round `n`, counted from 1. */
  datatype KeyPair = KeyPair(k0: bv32, k1: bv32)

  function KeysOf(sk: Subkeys, n: nat): KeyPair
    requires 1 <= n <= 16
  {
    KeyPair(sk[2 * n - 2], sk[2 * n - 1])
  }

  function Xor(a: bv32, b: bv32): bv32 {
    a ^ b
  }

  /** One half is changed by `m`: the first or the second. */
  function Changed(h: Halves, m: bv32, first: bool): Halves {
    if first then h.(x := Xor(h.x, m)) else h.(y := Xor(h.y, m))
  }

  /** One round: one half is changed by what the other and two subkeys give. */
  function Round(sb: Boxes, k: KeyPair, h: Halves, first: bool): Halves {
    Changed(h, Mixed(sb, if first then h.y else h.x, k.k0, k.k1), first)
  }

  /** The halves after `n` rounds: the odd ones, counted from 1, change `x`, the even ones `y`. */
  function Rounds(sb: Boxes, sk: Subkeys, n: nat, h: Halves): Halves
    requires n <= 16
  {
    if n == 0 then h else Round(sb, KeysOf(sk, n), Rounds(sb, sk, n - 1, h), n % 2 == 1)
  }

  function Turned(h: Halves): Halves {
    Halves(h.y, h.x)
  }

  /** `des_crypt` on the two halves of a block. */
  function Crypt(sb: Boxes, sk: Subkeys, h: Halves): Halves {
    FinalPermutation(Turned(Rounds(sb, sk, 16, InitialPermutation(h))))
  }

  /** The pairs of subkeys in reverse order, as `ldesdecode` arranges them. */
  function Reversed(sk: Subkeys): (r: Subkeys)
    ensures forall i :: 0 <= i < 16 ==> r[2 * i] == sk[30 - 2 * i] && r[2 * i + 1] == sk[31 - 2 * i]
  {
    seq(32, i requires 0 <= i < 32 => if i % 2 == 0 then sk[30 - i] else sk[32 - i])
  }

  lemma {:induction false} ReversedKeys(sk: Subkeys, n: nat)
    requires 1 <= n <= 16
    ensures KeysOf(Reversed(sk), n) == KeysOf(sk, 17 - n)
  {
    hide Reversed;
    var r := Reversed(sk);
    assert r[2 * (n - 1)] == sk[30 - 2 * (n - 1)] && r[2 * (n - 1) + 1] == sk[31 - 2 * (n - 1)];
  }

  lemma {:induction false} XorBack(a: bv32, b: bv32)
    ensures Xor(Xor(a, b), b) == a
  {
  }

  lemma {:induction false} RoundBack(sb: Boxes, k: KeyPair, h: Halves, first: bool)
    ensures Round(sb, k, Turned(Round(sb, k, h, first)), !first) == Turned(h)
  {
    hide Mixed, Xor;
    var m := Mixed(sb, if first then h.y else h.x, k.k0, k.k1);
    XorBack(h.x, m);
    XorBack(h.y, m);
  }

  /** Round `n` of the way back undoes round `17 - n` of the way there, with the halves turned. */
  lemma {:induction false} RoundsBack(sb: Boxes, sk: Subkeys, n: nat, h: Halves)
    requires n <= 16
    ensures Rounds(sb, Reversed(sk), n, Turned(Rounds(sb, sk, 16, h))) == Turned(Rounds(sb, sk, 16 - n, h))
  {
    hide Reversed, Round, Turned, KeysOf;
    if n > 0 {
      RoundsBack(sb, sk, n - 1, h);
      ReversedKeys(sk, n);
      assert (17 - n) % 2 == 1 <==> n % 2 == 0;
      RoundBack(sb, KeysOf(sk, 17 - n), Rounds(sb, sk, 16 - n, h), (17 - n) % 2 == 1);
    }
  }

  /** A block encrypted and decrypted is the block, whatever the subkeys and the S-boxes. */
  lemma {:induction false} CryptBack(sb: Boxes, sk: Subkeys, h: Halves)
    ensures Crypt(sb, Reversed(sk), Crypt(sb, sk, h)) == h
  {
    hide InitialPermutation, FinalPermutation, Rounds;
    var start := InitialPermutation(h);
    PermutationsInvert(Turned(Rounds(sb, sk, 16, start)));
    RoundsBack(sb, sk, 16, start);
    NoRounds(sb, sk, start);
    PermutationsInvert(h);
  }

  lemma {:induction false} NextRound(sb: Boxes, sk: Subkeys, n: nat, h: Halves)
    requires 1 <= n <= 16
    ensures Rounds(sb, sk, n, h) == Round(sb, KeysOf(sk, n), Rounds(sb, sk, n - 1, h), n % 2 == 1)
  {
    hide Mixed, Changed, Round, Xor;
  }

  lemma {:induction false} NoRounds(sb: Boxes, sk: Subkeys, h: Halves)
    ensures Rounds(sb, sk, 0, h) == h
  {
  }
}
