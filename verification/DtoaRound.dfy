/** The digit loop of dtoa, mode 2, and its final rounding: the decimal nearest the quotient, ties to an even last
    digit. */
module DtoaRound {
  import opened Basics
  import opened DtoaWords
  import opened DtoaBigint
  import opened DtoaPowers

  /** The number a sequence of decimal digits stands for. */
  function Decimal(ds: seq<nat>): nat {
    if ds == [] then 0 else 10 * Decimal(ds[..|ds| - 1]) + ds[|ds| - 1]
  }

  predicate Digits(ds: seq<nat>) {
    forall i :: 0 <= i < |ds| ==> ds[i] <= 9
  }

  /** `n` is the integer nearest `x / s`, and even if two are equally near. */
  predicate NearestEven(n: nat, x: nat, s: nat) {
    && 2 * Times(n, s) <= 2 * x + s && 2 * x <= 2 * Times(n, s) + s
    && (2 * Times(n, s) == 2 * x + s || 2 * x == 2 * Times(n, s) + s ==> n % 2 == 0)
  }

  lemma {:induction false} DecimalSnoc(ds: seq<nat>, d: nat)
    ensures Decimal(ds + [d]) == 10 * Decimal(ds) + d
  {
    assert (ds + [d])[..|ds|] == ds;
  }

  /** One more digit: the number times a power of 10 is the digits so far times `s` and a remainder. */
  lemma {:induction false} DigitStep(b0: nat, t: nat, d: nat, s: nat, r: nat, q: nat, r': nat)
    requires Times(b0, t) == Times(d, s) + r && Times(r, 10) == Times(s, q) + r'
    ensures Times(b0, Times(10, t)) == Times(10 * d + q, s) + r'
  {
    Associate(b0, 10, t);
    Distribute(d * s, r, 10);
    Distribute(10 * d, q, s);
    Associate(10, d, s);
  }

  lemma {:induction false} ExactIsNearest(n: nat, x: nat, s: nat)
    requires s > 0 && Times(n, s) == x
    ensures NearestEven(n, x, s)
  {
  }

  /** Nothing is left of the number: the digits are exact. */
  lemma {:induction false} ExactNearest(b0: nat, i: nat, n: nat, d: nat, s: nat)
    requires 1 <= i <= n && s > 0 && Times(b0, Exp(10, i - 1)) == Times(d, s)
    ensures NearestEven(Times(d, Exp(10, n - i)), Times(b0, Exp(10, n - 1)), s)
  {
    hide NearestEven;
    var u := Exp(10, n - i);
    ExpAdd(10, i - 1, n - i);
    Associate(b0, Exp(10, i - 1), u);
    Associate(d, s, u);
    Associate(d, u, s);
    ExactIsNearest(Times(d, u), Times(b0, Exp(10, n - 1)), s);
  }

  /** The last digit stays or goes up by the remainder, compared with half of the divisor. */
  lemma {:induction false} RoundedNearest(x: nat, d: nat, s: nat, r: nat, up: bool)
    requires x == Times(d, s) + r && r < s && up == (2 * r > s || (2 * r == s && d % 2 == 1))
    ensures NearestEven(if up then d + 1 else d, x, s)
  {
    Distribute(d, 1, s);
  }

  /** What is known between digits: `b` is the remainder, below `s`, after `ds` has been produced. */
  ghost predicate Produced(b0: nat, sv: nat, ds: seq<nat>, r: nat) {
    && |ds| >= 1 && Digits(ds) && ds[0] != 0 && r < sv
    && Times(b0, Exp(10, |ds| - 1)) == Times(Decimal(ds), sv) + r
  }

  lemma {:induction false} FirstDigit(b0: nat, sv: nat, q: nat, r: nat)
    requires b0 == Times(sv, q) + r && r < sv && q <= 9 && sv <= b0
    ensures Produced(b0, sv, [q], r)
  {
    assert Decimal([q]) == q by {
      DecimalSnoc([], q);
      assert [] + [q] == [q];
    }
    assert Exp(10, 0) == 1;
    TimesSmall(sv);
  }

  lemma {:induction false} NextDigit(b0: nat, sv: nat, ds: seq<nat>, r: nat, q: nat, r': nat)
    requires Produced(b0, sv, ds, r) && Times(r, 10) == Times(sv, q) + r' && r' < sv && q <= 9
    ensures Produced(b0, sv, ds + [q], r')
  {
    DecimalSnoc(ds, q);
    DigitStep(b0, Exp(10, |ds| - 1), Decimal(ds), sv, r, q, r');
    assert (ds + [q])[0] == ds[0];
  }

  /** The digits of a correctly rounded result: `n` digits at most, none zero at either end; `carry` when rounding has
      run out of digits and 10 to the `n` is meant. */
  ghost predicate Rounded(ds: seq<nat>, carry: bool, n: nat, x: nat, sv: nat) {
    && 1 <= |ds| <= n && Digits(ds) && ds[0] != 0 && ds[|ds| - 1] != 0
    && (carry ==> ds == [1])
    && NearestEven(if carry then Exp(10, n) else Times(Decimal(ds), Exp(10, n - |ds|)), x, sv)
  }

  // ----- the end: rounding up, or dropping zeros -----

  lemma {:induction false} NinesCarried(e: seq<nat>, u: nat)
    requires e != [] && e[|e| - 1] == 9
    ensures Times(Decimal(e) + 1, u) == Times(Decimal(e[..|e| - 1]) + 1, Times(10, u))
  {
    Associate(Decimal(e[..|e| - 1]) + 1, 10, u);
  }

  lemma {:induction false} ZeroDropped(e: seq<nat>, u: nat)
    requires e != [] && e[|e| - 1] == 0
    ensures Times(Decimal(e), u) == Times(Decimal(e[..|e| - 1]), Times(10, u))
  {
    Associate(Decimal(e[..|e| - 1]), 10, u);
  }

  /** `roundoff`: the last digit below 9 goes up, and the nines behind it go; if all are nines, a single 1 is left and
      the decimal exponent goes up. */
  method RoundOff(ds: seq<nat>) returns (out: seq<nat>, carry: bool)
    requires ds != [] && Digits(ds) && ds[0] != 0
    ensures 1 <= |out| <= |ds| && Digits(out) && out[0] != 0 && out[|out| - 1] != 0 && (carry ==> out == [1])
    ensures (if carry then Exp(10, |ds|) else Times(Decimal(out), Exp(10, |ds| - |out|))) == Decimal(ds) + 1
  {
    hide Times, Exp, Decimal;
    var j := |ds|;
    ExpSmall();
    TimesOne(Decimal(ds) + 1);
    assert ds[..j] == ds;
    while ds[j - 1] == 9
      invariant 1 <= j <= |ds|
      invariant Times(Decimal(ds[..j]) + 1, Exp(10, |ds| - j)) == Decimal(ds) + 1
      decreases j
    {
      NinesCarried(ds[..j], Exp(10, |ds| - j));
      ExpNext(|ds| - j);
      assert ds[..j][..j - 1] == ds[..j - 1];
      if j == 1 {
        NoDigits(ds[..0]);
        TimesOne(Exp(10, |ds|));
        return [1], true;
      }
      j := j - 1;
    }
    out, carry := ds[..j - 1] + [ds[j - 1] + 1], false;
    DecimalSnoc(ds[..j - 1], ds[j - 1] + 1);
    assert ds[..j] == ds[..j - 1] + [ds[j - 1]];
    DecimalSnoc(ds[..j - 1], ds[j - 1]);
  }

  lemma {:induction false} ExpSmall()
    ensures Exp(10, 0) == 1
  {
  }

  lemma {:induction false} ExpNext(n: nat)
    ensures Exp(10, n + 1) == Times(10, Exp(10, n))
  {
  }

  lemma {:induction false} NoDigits(ds: seq<nat>)
    ensures ds == [] ==> Decimal(ds) == 0
  {
  }

  lemma {:induction false} TimesOne(a: nat)
    ensures Times(a, 1) == a && Times(1, a) == a
  {
  }

  /** `trimzeros`. */
  method TrimZeros(ds: seq<nat>) returns (out: seq<nat>)
    requires ds != [] && Digits(ds) && ds[0] != 0
    ensures 1 <= |out| <= |ds| && Digits(out) && out[0] != 0 && out[|out| - 1] != 0
    ensures Times(Decimal(out), Exp(10, |ds| - |out|)) == Decimal(ds)
  {
    hide Times;
    var j := |ds|;
    TimesOne(Decimal(ds));
    assert ds[..j] == ds && Exp(10, 0) == 1;
    while ds[j - 1] == 0
      invariant 1 <= j <= |ds| && Times(Decimal(ds[..j]), Exp(10, |ds| - j)) == Decimal(ds)
      decreases j
    {
      ZeroDropped(ds[..j], Exp(10, |ds| - j));
      assert ds[..j][..j - 1] == ds[..j - 1];
      j := j - 1;
    }
    out := ds[..j];
  }

  // ----- the loop -----

  /** The divisor as the loop needs it: four leading zero bits in its top word. */
  ghost predicate Shifted(s: Bigint)
    reads s, s.x
  {
    s.Valid() && 1 <= s.wds && 0x800_0000 <= s.x[s.wds - 1] < 0x1000_0000
  }

  /** A number below ten times the divisor has no more words. */
  lemma {:induction false} NoMoreWords(u: seq<Word>, v: seq<Word>)
    requires v != [] && v[|v| - 1] < 0x1000_0000 && Val(u) < Times(10, Val(v)) && (|u| > 1 ==> u[|u| - 1] != 0)
    ensures |u| <= |v|
  {
    var n := |v| - 1;
    ValBound(v[..n]);
    Monotone(v[n], 0xFFF_FFFF, Pow(n));
    Distribute(0xFFF_FFFF, 1, Pow(n));
    Monotone(10 * 0x1000_0000, BASE, Pow(n));
    if |u| > |v| {
      TopWord(u);
      PowMonotone(|v|, |u| - 1);
    }
  }

  /** One digit: the quotient of the remainder. */
  method Digit(b: Bigint, s: Bigint) returns (q: nat)
    requires b.Valid() && Shifted(s) && b != s && b.x != s.x && b.Value() < Times(10, s.Value())
    modifies b, b.x
    ensures b.Valid() && b.x == old(b.x) && b.Value() < s.Value() && q <= 9
    ensures old(b.Value()) == Times(s.Value(), q) + b.Value()
  {
    hide Times, Val, Pow;
    NoMoreWords(b.x[..b.wds], s.x[..s.wds]);
    q := b.Quorem(s);
  }

  /** The comparison of twice the remainder with the divisor, and the rounding it decides. */
  method RoundLast(b: Bigint, s: Bigint, all: seq<nat>, ghost b0: nat) returns (ds: seq<nat>, carry: bool)
    requires b.Valid() && Shifted(s) && b.wds >= 1 && b.Value() > 0 && Produced(b0, s.Value(), all, b.Value())
    ensures Rounded(ds, carry, |all|, Times(b0, Exp(10, |all| - 1)), s.Value())
  {
    hide Times, Exp, Val, Pow, Rounded, Produced, TwoTo;
    ghost var r, sv := b.Value(), s.Value();
    ProducedDigits(b0, sv, all, r);
    var twice := b.LShift(1);
    Doubled(r);
    var j := twice.Cmp(s);
    Parity(all);
    var up := j > 0 || (j == 0 && all[|all| - 1] % 2 == 1);
    if up {
      ds, carry := RoundOff(all);
    } else {
      carry := false;
      ds := TrimZeros(all);
    }
    FinishedRounded(b0, sv, all, r, |all|, ds, carry, up);
  }

  /** The digits of `b / s`, at most `n` of them, correctly rounded. */
  method Generate(b: Bigint, s: Bigint, n: nat) returns (ds: seq<nat>, carry: bool)
    requires b.Valid() && Shifted(s) && b != s && b.x != s.x && n >= 1
    requires s.Value() <= b.Value() < Times(10, s.Value())
    modifies b, b.x
    ensures Rounded(ds, carry, n, Times(old(b.Value()), Exp(10, n - 1)), s.Value())
  {
    hide Times, Exp, Val, Pow, Rounded, Produced, TwoTo;
    ghost var b0, sv := b.Value(), s.Value();
    var dig := Digit(b, s);
    ds := [dig];
    FirstDigit(b0, sv, dig, b.Value());
    while !(b.x[0] == 0 && b.wds <= 1) && |ds| < n
      invariant b.Valid() && Shifted(s) && b != s && b.x != s.x && s.Value() == sv && (b.x == old(b.x) || fresh(b.x))
      invariant 1 <= |ds| <= n && dig == ds[|ds| - 1] && Produced(b0, sv, ds, b.Value())
      invariant b.Value() == 0 ==> dig != 0
    {
      ZeroTest(b.x[..b.wds]);
      ghost var r := b.Value();
      ProducedDigits(b0, sv, ds, r);
      assert b.wds >= 1;
      b.MultAdd(10, 0);
      Tenfold(r, sv);
      dig := Digit(b, s);
      LastNotZero(r, sv, dig, b.Value());
      NextDigit(b0, sv, ds, r, dig, b.Value());
      ds := ds + [dig];
    }
    ZeroTest(b.x[..b.wds]);
    if b.x[0] == 0 && b.wds <= 1 {
      FinishedExact(b0, sv, ds, n);
      return ds, false;
    }
    ds, carry := RoundLast(b, s, ds, b0);
  }

  lemma {:induction false} ProducedDigits(b0: nat, sv: nat, ds: seq<nat>, r: nat)
    requires Produced(b0, sv, ds, r)
    ensures |ds| >= 1 && Digits(ds) && ds[0] != 0 && r < sv
  {
  }

  lemma {:induction false} ZeroTest(x: seq<Word>)
    requires |x| > 1 ==> x[|x| - 1] != 0
    ensures Val(x) == 0 <==> |x| == 0 || (|x| == 1 && x[0] == 0)
  {
    if |x| > 0 {
      TopWord(x);
      PowPositive(|x| - 1);
    }
  }

  lemma {:induction false} Tenfold(r: nat, sv: nat)
    requires r < sv
    ensures Times(r, 10) + 0 < Times(10, sv)
  {
  }

  lemma {:induction false} Doubled(r: nat)
    ensures Times(r, TwoTo(1)) == 2 * r
  {
    assert TwoTo(1) == 2 * TwoTo(0);
  }

  lemma {:induction false} LastNotZero(r: nat, sv: nat, dig: nat, r': nat)
    requires r > 0 && Times(r, 10) == Times(sv, dig) + r'
    ensures r' == 0 ==> dig != 0
  {
    TimesSmall(sv);
  }

  lemma {:induction false} Parity(ds: seq<nat>)
    requires ds != []
    ensures Decimal(ds) % 2 == ds[|ds| - 1] % 2
  {
  }

  lemma {:induction false} FinishedExact(b0: nat, sv: nat, ds: seq<nat>, n: nat)
    requires Produced(b0, sv, ds, 0) && |ds| <= n && ds[|ds| - 1] != 0
    ensures Rounded(ds, false, n, Times(b0, Exp(10, n - 1)), sv)
  {
    ExactNearest(b0, |ds|, n, Decimal(ds), sv);
  }

  lemma {:induction false} FinishedRounded(b0: nat, sv: nat, ds: seq<nat>, r: nat, n: nat, out: seq<nat>, carry: bool,
                                           up: bool)
    requires Produced(b0, sv, ds, r) && |ds| == n
    requires up == (2 * r > sv || (2 * r == sv && Decimal(ds) % 2 == 1))
    requires 1 <= |out| <= |ds| && Digits(out) && out[0] != 0 && out[|out| - 1] != 0 && (carry ==> out == [1] && up)
    requires (if carry then Exp(10, |ds|) else Times(Decimal(out), Exp(10, |ds| - |out|))) == if up then Decimal(ds) + 1
             else Decimal(ds)
    ensures Rounded(out, carry, n, Times(b0, Exp(10, n - 1)), sv)
  {
    RoundedNearest(Times(b0, Exp(10, n - 1)), Decimal(ds), sv, r, up);
  }
}
