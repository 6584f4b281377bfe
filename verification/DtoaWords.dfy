/** Numbers as sequences of 32-bit words, least significant first, and the steps of the word loops of dtoa.c. */
module DtoaWords {

  const BASE: int := 0x1_0000_0000

  type Word = w: int | 0 <= w < BASE

  /** The weight of word `i`. */
  function Pow(i: nat): (p: nat)
    ensures p > 0
  {
    if i == 0 then 1 else Times(BASE, Pow(i - 1))
  }

  /** A product, named to keep its arguments apart from the arithmetic around it. */
  function Times(a: nat, b: nat): (p: nat)
    ensures a > 0 && b > 0 ==> p > 0
  {
    a * b
  }

  function Val(x: seq<Word>): nat {
    if x == [] then 0 else Val(x[..|x| - 1]) + Times(x[|x| - 1], Pow(|x| - 1))
  }

  lemma {:induction false} Distribute(a: int, b: int, c: int)
    ensures (a + b) * c == a * c + b * c && c * (a + b) == c * a + c * b && (a - b) * c == a * c - b * c
  {
  }

  lemma {:induction false} Associate(a: int, b: int, c: int)
    ensures a * (b * c) == (a * b) * c && (a * b) * c == b * (a * c) && a * b == b * a
  {
  }

  lemma {:induction false} Monotone(a: int, b: int, c: int)
    requires a <= b && c >= 0
    ensures a * c <= b * c
  {
  }

  /** `n` words are less than the weight of the next. */
  lemma {:induction false} ValBound(x: seq<Word>)
    ensures Val(x) < Pow(|x|)
  {
    if x == [] {
    } else {
      var n := |x| - 1;
      ValBound(x[..n]);
      Monotone(x[n], BASE - 1, Pow(n));
      Distribute(BASE, -1, Pow(n));
    }
  }

  lemma {:induction false} ValSnoc(x: seq<Word>, w: Word)
    ensures Val(x + [w]) == Val(x) + Times(w, Pow(|x|))
  {
    assert (x + [w])[..|x|] == x;
  }

  lemma {:induction false} PowMonotone(i: nat, j: nat)
    requires i <= j
    ensures Pow(i) <= Pow(j)
  {
    if i < j {
      PowMonotone(i, j - 1);
      Monotone(1, BASE, Pow(j - 1));
    }
  }

  /** The top word is not zero exactly when the number reaches its weight. */
  lemma {:induction false} TopWord(x: seq<Word>)
    requires x != []
    ensures x[|x| - 1] != 0 <==> Val(x) >= Pow(|x| - 1)
    ensures x[|x| - 1] == 0 ==> Val(x) == Val(x[..|x| - 1])
  {
    var n := |x| - 1;
    ValBound(x[..n]);
    if x[n] != 0 {
      Monotone(1, x[n], Pow(n));
    }
  }

  /** Numbers that agree above word `j` compare as their words `j` do. */
  lemma {:induction false} ComparedAt(x: seq<Word>, y: seq<Word>, j: nat)
    requires |x| == |y| && j < |x| && x[j] < y[j] && x[j + 1..] == y[j + 1..]
    ensures Val(x) < Val(y)
  {
    var n := |x| - 1;
    if j == n {
      ValBound(x[..n]);
      Monotone(x[n] + 1, y[n], Pow(n));
      Distribute(x[n], 1, Pow(n));
    } else {
      assert x[n] == x[j + 1..][n - j - 1] == y[n];
      assert x[..n][j + 1..] == x[j + 1..][..n - j - 1];
      assert y[..n][j + 1..] == y[j + 1..][..n - j - 1];
      ComparedAt(x[..n], y[..n], j);
    }
  }

  /** One word of a multiplication by `m`: `v + carry*p == w*m + a` is kept when word `o` is taken in. */
  lemma {:induction false} MulAddStep(v: nat, carry: nat, p: nat, w: nat, m: nat, a: int, o: nat, lo: nat, hi: nat)
    requires v + Times(carry, p) == Times(w, m) + a
    requires Times(o, m) + carry == lo + BASE * hi
    ensures v + Times(lo, p) + Times(hi, Times(BASE, p)) == Times(w + Times(o, p), m) + a
  {
    Distribute(lo, BASE * hi, p);
    Associate(hi, BASE, p);
    Distribute(Times(o, m), carry, p);
    Distribute(w, o * p, m);
    Associate(o, m, p);
    Associate(o, p, m);
  }

  /** One word of a subtraction of `q` times another number: `v - (carry + borrow)*p == w - u*q` is kept. */
  lemma {:induction false} SubMulStep(v: nat, carry: nat, borrow: nat, p: nat, w: nat, u: nat, q: nat, b: nat, s: nat,
                                      ylo: nat, c': nat, d: nat, b': nat)
    requires v - Times(carry, p) - Times(borrow, p) == w - Times(u, q)
    requires Times(s, q) + carry == ylo + BASE * c' && d == b - ylo - borrow + BASE * b'
    ensures v + Times(d, p) - Times(c', Times(BASE, p)) - Times(b', Times(BASE, p)) ==
            w + Times(b, p) - Times(u + Times(s, p), q)
  {
    Distribute(u, s * p, q);
    Associate(s, p, q);
    Associate(s, q, p);
    Distribute(Times(s, q), carry, p);
    Distribute(ylo, BASE * c', p);
    Associate(c', BASE, p);
    Associate(b', BASE, p);
    Distribute(b - ylo - borrow, BASE * b', p);
    Distribute(b - ylo, borrow, p);
    Distribute(b, ylo, p);
  }

  lemma {:induction false} PowAdd(i: nat, j: nat)
    ensures Pow(i + j) == Times(Pow(i), Pow(j))
  {
    if i > 0 {
      PowAdd(i - 1, j);
      Associate(BASE, Pow(i - 1), Pow(j));
    }
  }

  /** One word of a row of a product, added at weight `pj`: word `o` times `y` and word `cw` of the sum so far. */
  lemma {:induction false} RowStep(v: nat, carry: nat, pi: nat, pj: nat, w: nat, a: nat, y: nat, o: nat, cw: nat,
                                   lo: nat, hi: nat)
    requires v + Times(carry, Times(pi, pj)) == w + Times(Times(a, y), pj)
    requires Times(o, y) + cw + carry == lo + BASE * hi
    ensures v + Times(lo, Times(pi, pj)) + Times(hi, Times(BASE, Times(pi, pj))) ==
      w + Times(cw, Times(pi, pj)) + Times(Times(a + Times(o, pi), y), pj)
  {
    var p := pi * pj;
    Distribute(lo, BASE * hi, p);
    Associate(hi, BASE, p);
    Distribute(Times(o, y) + cw, carry, p);
    Distribute(Times(o, y), cw, p);
    Distribute(a, o * pi, y);
    Distribute(a * y, (o * pi) * y, pj);
    Reorder(o, pi, y, pj);
  }

  lemma {:induction false} Reorder(o: int, pi: int, y: int, pj: int)
    ensures ((o * pi) * y) * pj == (o * y) * (pi * pj)
  {
    Associate(o, pi, y);
    assert (o * pi) * y == (o * y) * pi;
    Associate(o * y, pi, pj);
  }

  /** One word of a difference: `v - borrow*p == w - u` is kept. */
  lemma {:induction false} DiffStep(v: nat, borrow: nat, p: nat, w: nat, u: nat, a: nat, b: nat, d: nat, b': nat)
    requires v - Times(borrow, p) == w - u && d == a - b - borrow + BASE * b'
    ensures v + Times(d, p) - Times(b', Times(BASE, p)) == w + Times(a, p) - (u + Times(b, p))
  {
    Associate(b', BASE, p);
    Distribute(a - b - borrow, BASE * b', p);
    Distribute(a - b, borrow, p);
    Distribute(a, b, p);
  }

  /** A word shifted left by the bits of `t` is cut into what stays, a multiple of `t`, and what is shifted out. */
  lemma {:induction false} ShiftWord(w: Word, t: nat, u: nat, z: nat)
    requires t > 0 && u > 0 && t * u == BASE && z < t
    ensures w / u < t && 0 <= (w * t) % BASE + z < BASE
    ensures Times(w, t) + z == (w * t) % BASE + z + BASE * (w / u)
  {
    var hi, r := w / u, w % u;
    assert w == hi * u + r by { Divided(w, u); }
    Distribute(hi * u, r, t);
    Associate(hi, u, t);
    Associate(u, t, 1);
    Monotone(r + 1, u, t);
    Distribute(r, 1, t);
    assert w * t == hi * BASE + r * t;
    Remainder(hi, r * t);
    if hi >= t {
      Monotone(t, hi, u);
    }
  }

  lemma {:induction false} Divided(w: nat, u: nat)
    requires u > 0
    ensures w == (w / u) * u + w % u
  {
  }

  lemma {:induction false} Remainder(hi: nat, r: nat)
    requires r < BASE
    ensures (hi * BASE + r) % BASE == r
  {
  }
}
