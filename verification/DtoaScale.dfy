/** The setup of dtoa: a dividend and a divisor whose quotient is the number over a power of 10, between 1 and 10. */
module DtoaScale {
  import opened Basics
  import opened DtoaWords
  import opened DtoaBigint
  import opened DtoaPowers
  import opened DtoaRound

  function Up(i: int): nat {
    if i > 0 then i else 0
  }

  /** `m * 2^be / 10^k` is the quotient of these two. */
  function Above(m: nat, be: int, k: int): nat {
    Times(Times(m, Exp(5, Up(-k))), TwoTo(Up(be) + Up(-k)))
  }

  function Below(be: int, k: int): (d: nat)
    ensures d > 0
  {
    Positive(Up(k), Up(-be) + Up(k));
    Times(Exp(5, Up(k)), TwoTo(Up(-be) + Up(k)))
  }

  lemma {:induction false} ExpPositive(b: nat, n: nat)
    requires b > 0
    ensures Exp(b, n) > 0
  {
    if n > 0 {
      ExpPositive(b, n - 1);
    }
  }

  lemma {:induction false} Positive(n: nat, t: nat)
    ensures Times(Exp(5, n), TwoTo(t)) > 0
  {
    ExpPositive(5, n);
  }

  /** The same factor of 2 more, or less, on both sides leaves the quotient. */
  lemma {:induction false} SameQuotient(a: nat, d: nat, b2: nat, s2: nat, p2: nat, q2: nat)
    requires p2 + s2 == q2 + b2
    ensures Times(Times(a, TwoTo(p2)), Times(d, TwoTo(s2))) == Times(Times(d, TwoTo(q2)), Times(a, TwoTo(b2)))
  {
    TwoToAdd(p2, s2);
    TwoToAdd(q2, b2);
    Rearrange(a, TwoTo(p2), d, TwoTo(s2));
    Rearrange(d, TwoTo(q2), a, TwoTo(b2));
    Associate(a, d, 1);
  }

  lemma {:induction false} Rearrange(a: int, p: int, d: int, s: int)
    ensures (a * p) * (d * s) == (a * d) * (p * s)
  {
    Associate(a, p, d * s);
    Associate(p, d, s);
    Associate(a, d, p * s);
    assert p * (d * s) == d * (p * s);
  }

  // ----- leading zero bits -----

  /** The number of leading zero bits of a word. */
  function HighZeros(x: Word): (k: nat)
    requires x > 0
    decreases BASE - x
  {
    if x >= 0x8000_0000 then 0 else 1 + HighZeros(2 * x)
  }

  lemma {:induction false} HighRange(x: Word)
    requires x > 0
    ensures HighZeros(x) <= 31 && TwoTo(31 - HighZeros(x)) <= x < TwoTo(32 - HighZeros(x))
    decreases BASE - x
  {
    TwoTo32();
    if x < 0x8000_0000 {
      HighRange(2 * x);
      var k := HighZeros(2 * x);
      if k == 31 {
        assert TwoTo(1) == 2 * TwoTo(0);
      }
    }
  }

  lemma {:induction false} HighShift(x: Word, j: nat)
    requires x > 0 && x * TwoTo(j) < BASE && (j > 0 ==> x * TwoTo(j - 1) < 0x8000_0000)
    ensures HighZeros(x) == j + HighZeros(x * TwoTo(j))
    decreases j
  {
    if j > 0 {
      assert x * TwoTo(j) == 2 * (x * TwoTo(j - 1)) by {
        Associate(2, x, TwoTo(j - 1));
      }
      if j > 1 {
        assert x * TwoTo(j - 1) == 2 * (x * TwoTo(j - 2)) by {
          Associate(2, x, TwoTo(j - 2));
        }
      }
      HighShift(x, j - 1);
    }
  }

  lemma {:induction false} SmallPowers()
    ensures TwoTo(0) == 1 && TwoTo(1) == 2 && TwoTo(2) == 4 && TwoTo(3) == 8 && TwoTo(4) == 16
    ensures TwoTo(7) == 0x80 && TwoTo(8) == 0x100 && TwoTo(15) == 0x8000 && TwoTo(16) == 0x1_0000
  {
    assert TwoTo(1) == 2 * TwoTo(0);
    assert TwoTo(2) == 2 * TwoTo(1);
    assert TwoTo(3) == 2 * TwoTo(2);
    assert TwoTo(4) == 2 * TwoTo(3);
    TwoToAdd(4, 3);
    TwoToAdd(4, 4);
    TwoToAdd(8, 7);
    TwoToAdd(8, 8);
  }

  /** `hi0bits`: halves, quarters and so on of the word are skipped while they are zero. */
  method Hi0bits(x0: Word) returns (k: nat)
    requires x0 > 0
    ensures k == HighZeros(x0)
  {
    SmallPowers();
    hide TwoTo, HighZeros;
    var x := x0;
    k := 0;
    if x < 0x1_0000 {
      HighShift(x, 16);
      k, x := 16, x * 0x1_0000;
    }
    if x < 0x100_0000 {
      HighShift(x, 8);
      k, x := k + 8, x * 0x100;
    }
    if x < 0x1000_0000 {
      HighShift(x, 4);
      k, x := k + 4, x * 0x10;
    }
    if x < 0x4000_0000 {
      HighShift(x, 2);
      k, x := k + 2, x * 4;
    }
    if x < 0x8000_0000 {
      HighShift(x, 1);
      k, x := k + 1, x * 2;
    }
    TopBit(x);
  }

  lemma {:induction false} TopBit(x: Word)
    requires x >= 0x8000_0000
    ensures HighZeros(x) == 0
  {
  }

  // ----- the shift before the loop -----

  /** `dshift`: how far to shift, after `p2` bits, until the top word has four leading zero bits. */
  method DShift(b: Bigint, p2: nat) returns (i: nat)
    requires b.Valid() && b.wds >= 1 && b.Value() > 0
    ensures i < 32 && b.x[b.wds - 1] > 0 && (p2 + i + 4 - HighZeros(b.x[b.wds - 1])) % 32 == 0
  {
    hide HighZeros, TwoTo;
    ZeroTest(b.x[..b.wds]);
    var h := Hi0bits(b.x[b.wds - 1]);
    i := (h - 4 - p2) % 32;
    Residue(h - 4 - p2, p2 + 4 - h);
  }

  lemma {:induction false} Residue(a: int, b: int)
    requires a == -b
    ensures (b + a % 32) % 32 == 0 && 0 <= a % 32 < 32
  {
  }

  /** A number between two powers whose exponents are 27 and 28 modulo 32 has its top word there. */
  lemma {:induction false} TopIn(y: seq<Word>, q: nat)
    requires Times(0x800_0000, Pow(q)) <= Val(y) < Times(0x1000_0000, Pow(q)) && (|y| > 1 ==> y[|y| - 1] != 0)
    ensures |y| == q + 1 && 0x800_0000 <= y[q] < 0x1000_0000
  {
    ValBound(y);
    Monotone(0x1000_0000, BASE, Pow(q));
    Monotone(1, 0x800_0000, Pow(q));
    if |y| <= q {
      PowMonotone(|y|, q);
    } else if |y| > q + 1 {
      TopWord(y);
      PowMonotone(q + 1, |y| - 1);
    } else {
      ValBound(y[..q]);
      if y[q] < 0x800_0000 {
        Monotone(y[q] + 1, 0x800_0000, Pow(q));
        Distribute(y[q], 1, Pow(q));
      } else if y[q] >= 0x1000_0000 {
        Monotone(0x1000_0000, y[q], Pow(q));
      }
    }
  }

  /** The range of a number by the leading zero bits of its top word. */
  lemma {:induction false} TopRange(x: seq<Word>)
    requires x != [] && x[|x| - 1] > 0
    ensures var n, h := |x| - 1, HighZeros(x[|x| - 1]);
      h <= 31 && Times(TwoTo(31 - h), Pow(n)) <= Val(x) < Times(TwoTo(32 - h), Pow(n))
  {
    hide HighZeros, TwoTo, Pow;
    var n, h := |x| - 1, HighZeros(x[|x| - 1]);
    HighRange(x[n]);
    ValBound(x[..n]);
    Monotone(TwoTo(31 - h), x[n], Pow(n));
    Monotone((x[n] as int) + 1, TwoTo(32 - h), Pow(n));
    Distribute(x[n], 1, Pow(n));
  }

  /** The top word of a shifted number. */
  lemma {:induction false} ShiftedTopWord(x: seq<Word>, y: seq<Word>, t: nat)
    requires x != [] && x[|x| - 1] > 0 && (t + 4 - HighZeros(x[|x| - 1])) % 32 == 0
    requires Val(y) == Times(Val(x), TwoTo(t)) && (|y| > 1 ==> y[|y| - 1] != 0)
    ensures y != [] && 0x800_0000 <= y[|y| - 1] < 0x1000_0000
  {
    hide HighZeros, Val, Pow, TwoTo, Times;
    var n, h := |x| - 1, HighZeros(x[|x| - 1]);
    TopRange(x);
    var c := (t + 4 - h) / 32;
    assert t == 32 * c + h - 4 && n + c >= 0;
    WholeShift(31 - h, n, t, c, 27);
    WholeShift(32 - h, n, t, c, 28);
    Bits27();
    WeakMonotone(Times(TwoTo(31 - h), Pow(n)), Val(x), TwoTo(t));
    StrictMonotone(Val(x), Times(TwoTo(32 - h), Pow(n)), TwoTo(t));
    TopIn(y, n + c);
  }

  lemma {:induction false} WeakMonotone(a: nat, b: nat, c: nat)
    requires a <= b
    ensures Times(a, c) <= Times(b, c)
  {
    Monotone(a, b, c);
  }

  lemma {:induction false} StrictMonotone(a: nat, b: nat, c: nat)
    requires a < b && c > 0
    ensures Times(a, c) < Times(b, c)
  {
    Monotone(a + 1, b, c);
    Distribute(a, 1, c);
  }

  lemma {:induction false} Bits27()
    ensures TwoTo(27) == 0x800_0000 && TwoTo(28) == 0x1000_0000
  {
    SmallPowers();
    TwoToAdd(16, 8);
    TwoToAdd(24, 3);
    TwoToAdd(24, 4);
  }

  /** Shifting a weighted power by whole words and some bits. */
  lemma {:induction false} WholeShift(e: nat, n: nat, t: nat, c: int, r: nat)
    requires e + t == r + 32 * c && n + c >= 0
    ensures Times(Times(TwoTo(e), Pow(n)), TwoTo(t)) == Times(TwoTo(r), Pow(n + c))
  {
    PowIsTwoTo(n);
    PowIsTwoTo(n + c);
    TwoToAdd(e, 32 * n);
    TwoToAdd(e + 32 * n, t);
    TwoToAdd(r, 32 * (n + c));
  }

  // ----- dividend and divisor -----

  /** The number `mv * 2^be` and its decimal exponent: `k` is the floor of the logarithm, or one more if `check`. */
  ghost predicate Estimated(mv: nat, be: int, k: int, check: bool) {
    && Above(mv, be, k) < 10 * Below(be, k)
    && (if check then Below(be, k) <= 10 * Above(mv, be, k) else Below(be, k) <= Above(mv, be, k))
  }

  /** `x / s` is `mv * 2^be / 10^k`. */
  ghost predicate SameRatio(x: nat, s: nat, mv: nat, be: int, k: int) {
    Times(x, Below(be, k)) == Times(s, Above(mv, be, k))
  }

  /** A factor of 10 more in the dividend is one less in the decimal exponent. */
  lemma {:induction false} LowerExponent(x: nat, s: nat, mv: nat, be: int, k: int)
    requires SameRatio(x, s, mv, be, k)
    ensures SameRatio(Times(x, 10), s, mv, be, k - 1)
  {
    if k > 0 {
      FiveTwo(k - 1);
      TwoToAdd(1, Up(-be) + k - 1);
      Tenth(x, s, Above(mv, be, k), Exp(5, k - 1), TwoTo(Up(-be) + k - 1));
    } else {
      FiveTwo(-k);
      Tenfold(x, s, mv, Exp(5, -k), TwoTo(Up(be) - k), Below(be, k));
    }
  }

  lemma {:induction false} FiveTwo(n: nat)
    ensures Exp(5, n + 1) == 5 * Exp(5, n) && TwoTo(1) == 2
  {
    assert TwoTo(1) == 2 * TwoTo(0);
  }

  lemma {:induction false} Tenth(x: nat, s: nat, a: nat, f: nat, t: nat)
    requires Times(x, Times(5 * f, 2 * t)) == Times(s, a)
    ensures Times(Times(x, 10), Times(f, t)) == Times(s, a)
  {
    Rearrange(5, f, 2, t);
    Associate(x, 10, f * t);
    assert (5 * f) * (2 * t) == 10 * (f * t) by {
      Associate(5, 2, f * t);
    }
  }

  lemma {:induction false} Tenfold(x: nat, s: nat, m: nat, f: nat, t: nat, d: nat)
    requires Times(x, d) == Times(s, Times(Times(m, f), t))
    ensures Times(Times(x, 10), d) == Times(s, Times(Times(m, 5 * f), 2 * t))
  {
    assert (m * (5 * f)) * (2 * t) == 10 * ((m * f) * t) by {
      Associate(m, 5, f);
      assert m * (5 * f) == 5 * (m * f);
      Rearrange(5, m * f, 2, t);
    }
    Associate(s, 10, (m * f) * t);
    Associate(x, 10, d);
  }

  /** The exponents of 2 and 5 in the dividend and the divisor, a common power of 2 taken out. */
  method Exponents(be: int, k: int) returns (b2: nat, s2: nat, b5: nat, s5: nat)
    ensures b5 == Up(-k) && s5 == Up(k) && b2 + Up(-be) + Up(k) == s2 + Up(be) + Up(-k)
  {
    var j := -be;
    if j >= 0 {
      b2, s2 := 0, j;
    } else {
      b2, s2 := -j, 0;
    }
    if k >= 0 {
      b5, s5, s2 := 0, k, s2 + k;
    } else {
      b2, b5, s5 := b2 - k, -k, 0;
    }
    if b2 > 0 && s2 > 0 {
      var i := if b2 < s2 then b2 else s2;
      b2, s2 := b2 - i, s2 - i;
    }
  }

  /** A number times a power of 5. */
  method TimesFives(b: Bigint, n: nat, powers: Powers) returns (r: Bigint)
    requires powers.Valid() && b.Valid() && b.wds >= 1 && b.Value() > 0 && b !in powers.p5s && b.x !in powers.Arrays()
    modifies powers, b, b.x
    ensures powers.Valid() && r.Valid() && r.wds >= 1 && (r == b || fresh(r)) && (r.x == old(b.x) || fresh(r.x))
    ensures r.Value() == Times(old(b.Value()), Exp(5, n)) && r.Value() > 0
    ensures old(powers.p5s) <= powers.p5s
  {
    hide Times, Exp, Val, Pow, TwoTo;
    r := b;
    PositiveProduct(b.Value(), n);
    if n > 0 {
      r := powers.Pow5Mult(b, n);
    }
    ZeroTest(r.x[..r.wds]);
  }

  lemma {:induction false} PositiveProduct(v: nat, n: nat)
    ensures Times(v, Exp(5, 0)) == v && (v > 0 ==> Times(v, Exp(5, n)) > 0)
  {
    ExpPositive(5, n);
  }

  /** The number times one power of 5, and another power of 5. */
  method BothFives(b: Bigint, b5: nat, s5: nat, powers: Powers) returns (x: Bigint, s: Bigint)
    requires powers.Valid() && b.Valid() && b.wds >= 1 && b.Value() > 0 && b !in powers.p5s && b.x !in powers.Arrays()
    modifies powers, b, b.x
    ensures powers.Valid() && x.Valid() && x.wds >= 1 && s.Valid() && s.wds >= 1 && x != s && x.x != s.x
    ensures (x == b || fresh(x)) && (x.x == old(b.x) || fresh(x.x)) && fresh(s) && fresh(s.x)
    ensures x.Value() == Times(old(b.Value()), Exp(5, b5)) && x.Value() > 0
    ensures s.Value() == Times(1, Exp(5, s5)) && s.Value() > 0
  {
    hide Times, Exp, Val, Pow, TwoTo;
    x := TimesFives(b, b5, powers);
    ghost var xv := x.Value();
    var one := new Bigint.I2b(1);
    s := TimesFives(one, s5, powers);
  }

  /** The quotient of the number and the power of 10, shifted for the digit loop. */
  method Ratio(b: Bigint, be: int, k: int, powers: Powers) returns (x: Bigint, s: Bigint)
    requires powers.Valid() && b.Valid() && b.wds >= 1 && b.Value() > 0 && b !in powers.p5s && b.x !in powers.Arrays()
    modifies powers, b, b.x
    ensures powers.Valid() && x.Valid() && x.wds >= 1 && Shifted(s) && x != s && x.x != s.x
    ensures (x == b || fresh(x)) && (x.x == old(b.x) || fresh(x.x)) && fresh(s) && fresh(s.x)
    ensures SameRatio(x.Value(), s.Value(), old(b.Value()), be, k)
  {
    hide Times, Exp, Val, Pow, TwoTo, HighZeros, SameRatio;
    ghost var mv := b.Value();
    var b2, s2, b5, s5 := Exponents(be, k);
    x, s := BothFives(b, b5, s5, powers);
    ghost var xv, sv := x.Value(), s.Value();
    ghost var i;
    x, s, i := Align(x, s, b2, s2);
    RatioKept(mv, be, k, b2 + i, s2 + i, xv, sv);
  }

  /** Both are shifted until the divisor has four leading zero bits. */
  method Align(x0: Bigint, s0: Bigint, b2: nat, s2: nat) returns (x: Bigint, s: Bigint, ghost i: nat)
    requires x0.Valid() && x0.wds >= 1 && x0.Value() > 0 && s0.Valid() && s0.wds >= 1 && s0.Value() > 0
    requires x0 != s0 && x0.x != s0.x
    ensures x.Valid() && x.wds >= 1 && Shifted(s) && x != s && x.x != s.x
    ensures x.Value() == Times(x0.Value(), TwoTo(b2 + i)) && s.Value() == Times(s0.Value(), TwoTo(s2 + i))
    ensures ((x == x0 && x.x == x0.x) || (fresh(x) && fresh(x.x))) &&
            ((s == s0 && s.x == s0.x) || (fresh(s) && fresh(s.x)))
  {
    hide Times, Val, Pow, TwoTo, HighZeros;
    var shift := DShift(s0, s2);
    i := shift;
    x := ShiftIf(x0, b2 + shift);
    s := ShiftIf(s0, s2 + shift);
    ShiftedTopWord(s0.x[..s0.wds], s.x[..s.wds], s2 + shift);
  }

  /** `lshift`, unless there is nothing to shift. */
  method ShiftIf(b: Bigint, n: nat) returns (r: Bigint)
    requires b.Valid() && b.wds >= 1 && b.Value() > 0
    ensures r.Valid() && r.wds >= 1 && r.Value() == Times(b.Value(), TwoTo(n))
    ensures (r == b && r.x == b.x) || (fresh(r) && fresh(r.x))
  {
    hide Times, Val, Pow;
    r := b;
    TimesOne(b.Value());
    if n > 0 {
      r := b.LShift(n);
    }
  }

  lemma {:induction false} RatioKept(mv: nat, be: int, k: int, p2: nat, q2: nat, xv: nat, sv: nat)
    requires p2 + Up(-be) + Up(k) == q2 + Up(be) + Up(-k)
    requires xv == Times(mv, Exp(5, Up(-k))) && sv == Times(1, Exp(5, Up(k)))
    ensures SameRatio(Times(xv, TwoTo(p2)), Times(sv, TwoTo(q2)), mv, be, k)
  {
    TimesOne(Exp(5, Up(k)));
    SameQuotient(xv, sv, Up(be) + Up(-k), Up(-be) + Up(k), p2, q2);
  }

  // ----- the estimate of the exponent -----

  lemma {:induction false} Between(x: nat, s: nat, mv: nat, be: int, k: int, check: bool)
    requires SameRatio(x, s, mv, be, k) && Estimated(mv, be, k, check) && s > 0
    ensures x < Times(10, s) && (if check then s <= Times(x, 10) else s <= x)
  {
    var a, d := Above(mv, be, k), Below(be, k);
    Associate(s, 10, d);
    Associate(10, s, d);
    Associate(x, 10, d);
    Associate(s, 10, a);
    if x >= Times(10, s) {
      Monotone(10 * s, x, d);
      StrictMonotone(a, 10 * d, s);
    }
    if check && s > Times(x, 10) {
      StrictMonotone(Times(x, 10), s, d);
      Monotone(d, 10 * a, s);
    } else if !check && s > x {
      StrictMonotone(x, s, d);
      Monotone(d, a, s);
    }
  }

  /** The setup of the bignum path: the quotient lies between 1 and 10, and is the number over 10 to the `k1`. */
  method Setup(b: Bigint, be: int, k: int, check: bool, powers: Powers) returns (x: Bigint, s: Bigint, k1: int)
    requires powers.Valid() && b.Valid() && b.wds >= 1 && b.Value() > 0 && b !in powers.p5s && b.x !in powers.Arrays()
    requires Estimated(b.Value(), be, k, check)
    modifies powers, b, b.x
    ensures x.Valid() && Shifted(s) && x != s && x.x != s.x && k - 1 <= k1 <= k && (!check ==> k1 == k)
    ensures (x == b || fresh(x)) && (x.x == old(b.x) || fresh(x.x))
    ensures SameRatio(x.Value(), s.Value(), old(b.Value()), be, k1) && s.Value() <= x.Value() < Times(10, s.Value())
  {
    hide Times, Exp, Val, Pow, TwoTo, HighZeros, SameRatio, Estimated;
    ghost var mv := b.Value();
    x, s := Ratio(b, be, k, powers);
    DivisorPositive(s.x[..s.wds]);
    Between(x.Value(), s.Value(), mv, be, k, check);
    k1 := k;
    if check {
      var r := x.Cmp(s);
      if r < 0 {
        k1 := k - 1;
        LowerExponent(x.Value(), s.Value(), mv, be, k);
        ghost var xv := x.Value();
        x.MultAdd(10, 0);
        TenTimes(xv, s.Value());
      }
    }
  }

  lemma {:induction false} DivisorPositive(x: seq<Word>)
    requires x != [] && x[|x| - 1] > 0
    ensures Val(x) > 0
  {
    TopWord(x);
    PowPositive(|x| - 1);
  }

  lemma {:induction false} TenTimes(x: nat, s: nat)
    requires x < s
    ensures Times(x, 10) < Times(10, s)
  {
  }

  // ----- the whole conversion -----

  /** Comparisons do not depend on a common factor. */
  lemma {:induction false} ScaledCompare(u: nat, v: nat, u': nat, v': nat, s: nat, d: nat)
    requires s > 0 && d > 0 && Times(u, d) == Times(u', s) && Times(v, d) == Times(v', s)
    ensures (u <= v <==> u' <= v') && (u == v <==> u' == v')
  {
    if u < v {
      StrictMonotone(u, v, d);
    } else if v < u {
      StrictMonotone(v, u, d);
    }
    if u' < v' {
      StrictMonotone(u', v', s);
    } else if v' < u' {
      StrictMonotone(v', u', s);
    }
  }

  lemma {:induction false} ScaledSides(n: nat, x: nat, s: nat, a: nat, d: nat, t: nat)
    requires Times(x, d) == Times(s, a)
    ensures Times(2 * Times(n, s), d) == Times(2 * Times(n, d), s)
    ensures Times(2 * Times(n, s) + s, d) == Times(2 * Times(n, d) + d, s)
    ensures Times(2 * Times(x, t), d) == Times(2 * Times(a, t), s)
    ensures Times(2 * Times(x, t) + s, d) == Times(2 * Times(a, t) + d, s)
  {
    Associate(n, s, d);
    Associate(n, d, s);
    assert (n * s) * d == (n * d) * s;
    Associate(x, t, d);
    Associate(x, d, t);
    Associate(a, t, s);
    assert (x * t) * d == (x * d) * t && (a * t) * s == (s * a) * t;
    Doubling(n * s, d);
    Doubling(n * d, s);
    Doubling(x * t, d);
    Doubling(a * t, s);
    Distribute(2 * (n * s), s, d);
    Distribute(2 * (n * d), d, s);
    Distribute(2 * (x * t), s, d);
    Distribute(2 * (a * t), d, s);
  }

  lemma {:induction false} Doubling(a: int, b: int)
    ensures (2 * a) * b == 2 * (a * b)
  {
  }

  /** The nearest integer of a quotient does not depend on how the quotient is written. */
  lemma {:induction false} NearestScales(n: nat, x: nat, s: nat, a: nat, d: nat, t: nat)
    requires s > 0 && d > 0 && Times(x, d) == Times(s, a) && NearestEven(n, Times(x, t), s)
    ensures NearestEven(n, Times(a, t), d)
  {
    hide Times;
    ScaledSides(n, x, s, a, d, t);
    ScaledCompare(2 * Times(n, s), 2 * Times(x, t) + s, 2 * Times(n, d), 2 * Times(a, t) + d, s, d);
    ScaledCompare(2 * Times(x, t), 2 * Times(n, s) + s, 2 * Times(a, t), 2 * Times(n, d) + d, s, d);
  }

  /** Correct decimal rounding: for the number `m * 2^be` and an estimate `k` of its decimal exponent, the digits are
      those of the integer nearest the number scaled to `n` digits, ties to even, without zeros at the end; `decpt` is
      where the decimal point goes, one further when rounding carries out of the digits. */
  method Convert(b: Bigint, be: int, k: int, check: bool, n: nat, powers: Powers)
    returns (ds: seq<nat>, decpt: int, carry: bool)
    requires powers.Valid() && b.Valid() && b.wds >= 1 && b.Value() > 0 && b !in powers.p5s && b.x !in powers.Arrays()
    requires Estimated(b.Value(), be, k, check) && n >= 1
    modifies powers, b, b.x
    ensures CorrectlyRounded(ds, carry, n, old(b.Value()), be, decpt - (if carry then 2 else 1))
    ensures k <= decpt - (if carry then 1 else 0) <= k + 1
  {
    hide Times, Exp, Val, Pow, TwoTo, HighZeros, SameRatio, Estimated, Rounded;
    ghost var mv := b.Value();
    var x, s, k1 := Setup(b, be, k, check, powers);
    DivisorPositive(s.x[..s.wds]);
    ghost var xv, sv := x.Value(), s.Value();
    ds, carry := Generate(x, s, n);
    RoundedScales(ds, carry, n, xv, sv, mv, be, k1);
    decpt := if carry then k1 + 2 else k1 + 1;
  }

  /** `ds` are the digits of `m * 2^be / 10^k`, which lies between 1 and 10, rounded to `n` digits. */
  ghost predicate CorrectlyRounded(ds: seq<nat>, carry: bool, n: nat, m: nat, be: int, k: int) {
    n >= 1 && Rounded(ds, carry, n, Times(Above(m, be, k), Exp(10, n - 1)), Below(be, k)) &&
      Below(be, k) <= Above(m, be, k) < 10 * Below(be, k)
  }

  lemma {:induction false} RoundedScales(ds: seq<nat>, carry: bool, n: nat, x: nat, s: nat, m: nat, be: int, k: int)
    requires n >= 1 && s > 0 && SameRatio(x, s, m, be, k) && s <= x < Times(10, s)
    requires Rounded(ds, carry, n, Times(x, Exp(10, n - 1)), s)
    ensures CorrectlyRounded(ds, carry, n, m, be, k)
  {
    var a, d := Above(m, be, k), Below(be, k);
    NearestScales(if carry then Exp(10, n) else Times(Decimal(ds), Exp(10, n - |ds|)), x, s, a, d, Exp(10, n - 1));
    hide Times, Above, Below;
    RatioBetween(x, s, a, d);
  }

  lemma {:induction false} RatioBetween(x: nat, s: nat, a: nat, d: nat)
    requires s > 0 && d > 0 && Times(x, d) == Times(s, a) && s <= x < Times(10, s)
    ensures d <= a < 10 * d
  {
    Associate(s, d, 1);
    Associate(s, a, 1);
    ScaledCompare(s, x, d, a, s, d);
    Associate(10, s, d);
    Associate(10, d, s);
    ScaledCompare(10 * s, x, 10 * d, a, s, d);
  }
}
