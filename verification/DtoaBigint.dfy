/** The Bigint of dtoa.c: a word array that is read and written in place. */
module DtoaBigint {
  import opened Basics
  import opened DtoaWords

  class Bigint {
    var k: nat
    var x: array<Word>
    var wds: nat
    var sign: bool

    /** `maxwds` is the length of the array, 2 to the `k`. The top word in use is not zero; a number that a quotient has
        brought to zero may be left without words. */
    ghost predicate Valid()
      reads this, x
    {
      && x.Length == TwoTo(k) && wds <= x.Length
      && (wds > 1 ==> x[wds - 1] != 0) && (wds == 0 ==> x[0] == 0)
    }

    ghost function Value(): nat
      requires wds <= x.Length
      reads this, x
    {
      Val(x[..wds])
    }

    /** `Balloc`. */
    constructor Balloc(kk: nat)
      ensures fresh(x) && !sign && k == kk && x.Length == TwoTo(kk) && wds == 0 && Valid()
      ensures forall i :: 0 <= i < x.Length ==> x[i] == 0
    {
      k := kk;
      x := new Word[TwoTo(kk)](_ => 0);
      wds, sign := 0, false;
    }

    /** `i2b`. */
    constructor I2b(i: Word)
      ensures fresh(x) && !sign && Valid() && Value() == i && wds == 1
    {
      k := 1;
      x := new Word[TwoTo(1)](_ => 0);
      wds, sign := 1, false;
      new;
      x[0] := i;
      assert x[..1] == [] + [i];
      ValSnoc([], i);
    }

    /** `multadd`: the number times `m` plus `a`, in place, in a larger array if the carry needs one. A factor of 0
        leaves zero words at the top of a number of several words. */
    method MultAdd(m: Word, a: Word)
      requires Valid() && wds >= 1
      modifies this, x
      ensures x.Length == TwoTo(k) && old(wds) <= wds <= x.Length && wds <= old(wds) + 1 && (x == old(x) || fresh(x))
      ensures Valid() <==> m > 0 || old(wds) == 1
      ensures Value() == Times(old(Value()), m) + a
    {
      hide Times, Pow, Val, TwoTo;
      var carry := MulWords(m, a);
      if m > 0 {
        TopKept(old(x[..wds]), x[..wds], m, carry);
      } else {
        OneWordLeft(x[..wds], old(Value()), carry, a);
      }
      if carry != 0 {
        Append(carry);
      }
    }

    /** The loop of `multadd`. */
    method MulWords(m: Word, a: Word) returns (carry: Word)
      requires 1 <= wds <= x.Length
      modifies x
      ensures Val(x[..wds]) + Times(carry, Pow(wds)) == Times(Val(old(x[..wds])), m) + a
    {
      hide Times, Pow, Val;
      ghost var was := x[..wds];
      var i := 0;
      carry := a;
      NoWords(m, a);
      assert was[..0] == [] && x[..0] == [];
      while i < wds
        invariant 0 <= i <= wds
        invariant Val(x[..i]) + Times(carry, Pow(i)) == Times(Val(was[..i]), m) + a
        invariant forall j :: i <= j < wds ==> x[j] == was[j]
      {
        var y := x[i] * m + carry;
        WordProduct(x[i], m, carry);
        Taken(was, i);
        MulAddStep(Val(x[..i]), carry, Pow(i), Val(was[..i]), m, a, x[i], y % BASE, y / BASE);
        PowNext(i);
        Replaced(x[..], i, y % BASE);
        carry := y / BASE;
        x[i] := y % BASE;
        i := i + 1;
      }
      assert was[..wds] == was;
    }

    /** A carry is appended as a new top word. */
    method Append(carry: Word)
      requires x.Length == TwoTo(k) && 1 <= wds <= x.Length && carry != 0
      modifies this, x
      ensures Valid() && wds == old(wds) + 1 && (x == old(x) || fresh(x))
      ensures Value() == old(Value()) + Times(carry, Pow(old(wds)))
    {
      hide Times, Pow, Val;
      ghost var low := x[..wds];
      if wds >= x.Length {
        var y := new Word[TwoTo(k + 1)](_ => 0);
        forall j | 0 <= j < wds {
          y[j] := x[j];
        }
        x, k := y, k + 1;
      }
      assert x[..wds] == low;
      x[wds] := carry;
      assert x[..wds + 1] == low + [carry];
      ValSnoc(low, carry);
      wds := wds + 1;
    }

    /** `cmp`: negative, zero or positive as this number is less than, equal to or greater than `b`. */
    method Cmp(b: Bigint) returns (r: int)
      requires Valid() && b.Valid() && (b.Value() > 0 || (wds >= 1 && b.wds >= 1))
      ensures r < 0 <==> Value() < b.Value()
      ensures r == 0 <==> Value() == b.Value()
    {
      hide Times, Pow, Val, TwoTo;
      if wds != b.wds {
        if wds < b.wds {
          FewerWords(x[..wds], b.x[..b.wds]);
        } else {
          NoValue(b.x[..b.wds]);
          FewerWords(b.x[..b.wds], x[..wds]);
        }
        return wds - b.wds;
      }
      var j := wds;
      while j > 0
        invariant 0 <= j <= wds == b.wds && x[j..wds] == b.x[j..wds]
      {
        j := j - 1;
        if x[j] != b.x[j] {
          ghost var u, v := x[..wds], b.x[..wds];
          assert u[j + 1..] == x[j + 1..wds] && v[j + 1..] == b.x[j + 1..wds];
          if x[j] < b.x[j] {
            ComparedAt(u, v, j);
            return -1;
          } else {
            ComparedAt(v, u, j);
            return 1;
          }
        }
        assert x[j..wds] == [x[j]] + x[j + 1..wds] && b.x[j..wds] == [b.x[j]] + b.x[j + 1..wds];
      }
      assert x[..wds] == x[0..wds] && b.x[..wds] == b.x[0..wds];
      return 0;
    }

    /** The loop of `quorem`: `q` times `s` is subtracted, word by word. */
    method SubMul(s: Bigint, q: Word)
      requires s.x != x && wds == s.wds <= x.Length && s.wds <= s.x.Length && Times(Val(s.x[..wds]), q) <= Val(x[..wds])
      modifies x
      ensures Val(x[..wds]) == Val(old(x[..wds])) - Times(Val(s.x[..wds]), q)
    {
      hide Times, Pow, Val;
      ghost var was, sub := x[..wds], s.x[..wds];
      var i, carry, borrow: int := 0, 0, 0;
      NothingTaken(q);
      assert was[..0] == [] && x[..0] == [] && sub[..0] == [];
      while i < wds
        invariant 0 <= i <= wds == s.wds && 0 <= carry < BASE && 0 <= borrow <= 1 && sub == s.x[..wds]
        invariant Val(x[..i]) - Times(carry, Pow(i)) - Times(borrow, Pow(i)) == Val(was[..i]) - Times(Val(sub[..i]), q)
        invariant forall j :: i <= j < wds ==> x[j] == was[j]
      {
        var ys := s.x[i] * q + carry;
        WordProduct(s.x[i], q, carry);
        var y := x[i] - ys % BASE - borrow;
        var d: Word := if y < 0 then y + BASE else y;
        ghost var b' := if y < 0 then 1 else 0;
        Taken(was, i);
        Taken(sub, i);
        SubMulStep(Val(x[..i]), carry, borrow, Pow(i), Val(was[..i]), Val(sub[..i]), q, x[i], s.x[i], ys % BASE,
                   ys / BASE, d, b');
        PowNext(i);
        Replaced(x[..], i, d);
        carry, borrow := ys / BASE, if y < 0 then 1 else 0;
        x[i] := d;
        i := i + 1;
      }
      assert was[..wds] == was && sub[..wds] == sub;
      NothingLeft(was, x[..wds], carry, borrow, Times(Val(sub), q));
    }

    /** The end of `quorem`: zero words are dropped from the top. */
    method Trim()
      requires x.Length == TwoTo(k) && 1 <= wds <= x.Length
      modifies this`wds
      ensures Valid() && wds <= old(wds) && Value() == old(Value())
    {
      hide Times, Pow, Val, TwoTo;
      var n := wds - 1;
      if x[n] == 0 {
        Dropped(x[..wds]);
        assert x[..wds][..n] == x[..n];
        var e := n - 1;
        while e > 0 && x[e] == 0
          invariant -1 <= e < x.Length && n == e + 1 && (n == 0 ==> x[0] == 0) && n <= old(wds) - 1 &&
                    Val(x[..n]) == Val(x[..old(wds)]) && wds == old(wds)
        {
          Dropped(x[..n]);
          assert x[..n][..e] == x[..e];
          e, n := e - 1, n - 1;
        }
        wds := n;
      }
    }

    /** A loop of `quorem`, and the leading zero words it leaves dropped. */
    method TakeAway(s: Bigint, q: Word)
      requires Valid() && s.Valid() && s.x != x && 1 <= wds == s.wds && Times(s.Value(), q) <= Value()
      modifies this`wds, x
      ensures Valid() && wds <= old(wds) && Value() == old(Value()) - Times(s.Value(), q)
    {
      hide Times, Pow, Val, TwoTo;
      SubMul(s, q);
      Trim();
    }

    /** The quotient of two top words, the divisor's one higher. */
    static method TopQuotient(a: Word, d: Word) returns (q: Word)
      ensures q == a / ((d as int) + 1)
    {
      SmallerQuotient(a, (d as int) + 1);
      q := a / ((d as int) + 1);
    }

    /** `quorem`: the number becomes the remainder by `s`, and the quotient, below 10, is returned. The estimate from
        the top words may be one too low. */
    method Quorem(s: Bigint) returns (q: Word)
      requires Valid() && s.Valid() && s.x != x && s != this && 1 <= s.wds && wds <= s.wds
      requires 10 <= s.x[s.wds - 1] < 0x1000_0000 && Value() < Times(10, s.Value())
      modifies this, x
      ensures Valid() && x == old(x) && wds <= old(wds)
      ensures old(Value()) == Times(s.Value(), q) + Value() && Value() < s.Value() && q <= 9
    {
      hide Times, Pow, Val, TwoTo;
      var n := s.wds;
      TopWord(s.x[..n]);
      PowPositive(n - 1);
      if wds < n {
        FewerWords(x[..wds], s.x[..n]);
        TimesSmall(s.Value());
        return 0;
      }
      q := TopQuotient(x[n - 1], s.x[n - 1]);
      Estimate(x[..n], s.x[..n], q);
      ghost var u, v := Value(), s.Value();
      if q != 0 {
        TakeAway(s, q);
      } else {
        TimesSmall(v);
      }
      assert Value() == u - Times(v, q);
      q := Correct(s, q, u);
    }

    /** The second half of `quorem`: once more, if the estimate was one too small. */
    method Correct(s: Bigint, q: Word, ghost u: nat) returns (q': Word)
      requires Valid() && s.Valid() && s.x != x && s != this && 1 <= s.wds && wds <= s.wds && q <= 9
      requires s.x[s.wds - 1] != 0 && Value() == u - Times(s.Value(), q) && Value() < s.Value() + s.Value()
      requires Value() < s.Value() || q <= 8
      modifies this`wds, x
      ensures Valid() && wds <= old(wds) && q' <= 9
      ensures u == Times(s.Value(), q') + Value() && Value() < s.Value()
    {
      hide Times, Pow, Val, TwoTo;
      q' := q;
      TopWord(s.x[..s.wds]);
      PowPositive(s.wds - 1);
      var r := Cmp(s);
      if r >= 0 {
        if wds < s.wds {
          FewerWords(x[..wds], s.x[..s.wds]);
          assert false;
        }
        q' := q + 1;
        TimesSmall(s.Value());
        TakeAway(s, 1);
        OneMore(s.Value(), q);
      }
    }

    /** One row of `mult`: `y` times the number is added to `c` from word `j` on. */
    method AddRow(c: array<Word>, y: Word, j: nat)
      requires c != x && wds <= x.Length && j + wds < c.Length && c[j + wds] == 0
      modifies c
      ensures Val(c[..j + wds + 1]) == Val(old(c[..j + wds])) + Times(Times(Value(), y), Pow(j))
      ensures forall l :: j + wds < l < c.Length ==> c[l] == old(c[l])
      ensures forall l :: 0 <= l < j ==> c[l] == old(c[l])
    {
      hide Times, Pow, Val;
      ghost var was, a := c[..], x[..wds];
      var i, carry: int := 0, 0;
      RowStart(y, Pow(j));
      assert a[..0] == [];
      assert was[..j + wds] == old(c[..j + wds]) && a[..wds] == a;
      while i < wds
        invariant 0 <= i <= wds && 0 <= carry < BASE && a == x[..wds]
        invariant Val(c[..j + i]) + Times(carry, Times(Pow(i), Pow(j))) ==
          Val(was[..j + i]) + Times(Times(Val(a[..i]), y), Pow(j))
        invariant forall l :: j + i <= l < c.Length ==> c[l] == was[l]
        invariant forall l :: 0 <= l < j ==> c[l] == was[l]
      {
        var z := x[i] * y + c[j + i] + carry;
        RowProduct(x[i], y, c[j + i], carry);
        RowStep(Val(c[..j + i]), carry, Pow(i), Pow(j), Val(was[..j + i]), Val(a[..i]), y, x[i], c[j + i], z % BASE,
                z / BASE);
        Taken(was, j + i);
        Taken(a, i);
        PowAdd(i, j);
        PowAdd(i + 1, j);
        PowNext(i + j);
        Replaced(c[..], j + i, z % BASE);
        carry := z / BASE;
        c[j + i] := z % BASE;
        i := i + 1;
      }
      PowAdd(wds, j);
      Replaced(c[..], j + wds, carry);
      c[j + wds] := carry;
    }

    /** The words of `lshift`: each is shifted by `bits`, with the bits shifted out of the one below put in. */
    method ShiftWords(c: array<Word>, n: nat, bits: nat)
      requires c != x && wds <= x.Length && n + wds < c.Length && 0 < bits < 32
      requires forall l :: 0 <= l < c.Length ==> c[l] == 0
      modifies c
      ensures Val(c[..n + wds + 1]) == Times(Times(Value(), TwoTo(bits)), Pow(n))
    {
      hide Times, Pow, Val, TwoTo;
      ghost var a := x[..wds];
      var t, u, z, i := TwoTo(bits), TwoTo(32 - bits), 0, 0;
      TwoTo32();
      TwoToAdd(bits, 32 - bits);
      assert t * u == BASE by { IsProduct(t, u); }
      RowStart(t, Pow(n));
      NoRows(0, c[..n]);
      while i < wds
        invariant 0 <= i <= wds && 0 <= z < t && a == x[..wds]
        invariant Val(c[..n + i]) + Times(z, Times(Pow(i), Pow(n))) == Times(Times(Val(a[..i]), t), Pow(n))
        invariant forall l :: n + i <= l < c.Length ==> c[l] == 0
      {
        ShiftWord(x[i], t, u, z);
        var lo: Word := (x[i] * t) % BASE + z;
        RowStep(Val(c[..n + i]), z, Pow(i), Pow(n), 0, Val(a[..i]), t, x[i], 0, lo, x[i] / u);
        Taken(a, i);
        PowAdd(i, n);
        PowAdd(i + 1, n);
        PowNext(i + n);
        NothingTimes(Times(Pow(i), Pow(n)));
        Replaced(c[..], n + i, lo);
        c[n + i] := lo;
        z := x[i] / u;
        i := i + 1;
      }
      assert a[..wds] == a;
      PowAdd(wds, n);
      Replaced(c[..], n + wds, z);
      c[n + wds] := z;
    }

    /** The words of `lshift` by a whole number of words. */
    method CopyWords(c: array<Word>, n: nat)
      requires c != x && wds <= x.Length && n + wds < c.Length
      requires forall l :: 0 <= l < c.Length ==> c[l] == 0
      modifies c
      ensures Val(c[..n + wds + 1]) == Times(Value(), Pow(n))
    {
      hide Times, Pow, Val;
      ghost var a := x[..wds];
      var i := 0;
      NoRows(0, c[..n]);
      NothingTaken(Pow(n));
      while i < wds
        invariant 0 <= i <= wds && a == x[..wds]
        invariant Val(c[..n + i]) == Times(Val(a[..i]), Pow(n))
        invariant forall l :: n + i <= l < c.Length ==> c[l] == 0
      {
        Taken(a, i);
        PowAdd(i, n);
        CopyStep(Val(a[..i]), x[i], Pow(i), Pow(n));
        Replaced(c[..], n + i, x[i]);
        c[n + i] := x[i];
        i := i + 1;
      }
      assert a[..wds] == a;
      Dropped(c[..n + wds + 1]);
      assert c[..n + wds + 1][..n + wds] == c[..n + wds];
    }

    /** The exponent of an array with room for `n1` words, and for no fewer than the number's own has. */
    method Capacity(n1: nat) returns (k1: nat)
      requires Valid()
      ensures n1 <= TwoTo(k1) && k <= k1
    {
      hide Val;
      k1 := k;
      var i := x.Length;
      while n1 > i
        invariant i == TwoTo(k1) && k <= k1
        decreases n1 - i
      {
        i, k1 := 2 * i, k1 + 1;
      }
    }

    /** The words of the shifted number, without deciding how many are in use. */
    method ShiftInto(c: array<Word>, kk: nat)
      requires c != x && wds <= x.Length && kk / 32 + wds < c.Length
      requires forall l :: 0 <= l < c.Length ==> c[l] == 0
      modifies c
      ensures Val(c[..kk / 32 + wds + 1]) == Times(Times(Value(), TwoTo(kk % 32)), Pow(kk / 32))
      ensures Val(c[..kk / 32 + wds + 1]) == Times(Value(), TwoTo(kk))
    {
      hide Times, Pow, Val, TwoTo;
      var n, bits := kk / 32, kk % 32;
      ShiftBits(n, bits);
      ShiftValue(Value(), TwoTo(bits), n);
      if bits > 0 {
        ShiftWords(c, n, bits);
      } else {
        CopyWords(c, n);
        OneWord();
        TimesSmall(Value());
      }
    }

    /** `lshift`. A shift of 0 by a word or more leaves zero words at the top. */
    method LShift(kk: nat) returns (c: Bigint)
      requires Valid() && wds >= 1
      ensures fresh(c) && fresh(c.x) && c.x.Length == TwoTo(c.k) && 1 <= c.wds <= c.x.Length
      ensures c.Value() == Times(Value(), TwoTo(kk))
      ensures c.Valid() <==> Value() > 0 || kk < 32
    {
      hide Times, Pow, Val;
      var n := kk / 32;
      var n1 := n + wds + 1;
      var k1 := Capacity(n1);
      c := new Bigint.Balloc(k1);
      ShiftInto(c.x, kk);
      if Value() > 0 {
        ShiftedTop(x[..wds], c.x[..n1], n, TwoTo(kk % 32));
      } else {
        OnlyZero(x[..wds]);
        NothingTimes(TwoTo(kk));
        ZeroTops(c.x[..n1]);
      }
      c.wds := if c.x[n1 - 1] != 0 then n1 else n1 - 1;
      assert c.x[..n1][..n1 - 1] == c.x[..n1 - 1];
    }

    /** The loops of `diff`: `b`, which has no more words, is subtracted from the number. */
    method SubtractInto(b: Bigint, c: array<Word>)
      requires c != x && c != b.x && b.wds <= wds <= x.Length && b.wds <= b.x.Length && wds <= c.Length &&
               b.Value() <= Value()
      modifies c
      ensures Val(c[..wds]) == Value() - b.Value()
    {
      hide Times, Pow, Val;
      ghost var u, v := x[..wds], b.x[..b.wds];
      var i, borrow: int := 0, 0;
      NothingTaken(0);
      assert u[..0] == [] && v[..0] == [] && c[..0] == [];
      while i < b.wds
        invariant 0 <= i <= b.wds && 0 <= borrow <= 1 && u == x[..wds] && v == b.x[..b.wds]
        invariant Val(c[..i]) - Times(borrow, Pow(i)) == Val(u[..i]) - Val(v[..i])
      {
        borrow := SubtractWord(c, i, x[i], b.x[i], borrow, Val(u[..i]), Val(v[..i]));
        Taken(u, i);
        Taken(v, i);
        i := i + 1;
      }
      assert v[..b.wds] == v;
      while i < wds
        invariant b.wds <= i <= wds && 0 <= borrow <= 1 && u == x[..wds] && v == b.x[..b.wds]
        invariant Val(c[..i]) - Times(borrow, Pow(i)) == Val(u[..i]) - Val(v)
      {
        borrow := SubtractWord(c, i, x[i], 0, borrow, Val(u[..i]), Val(v));
        Taken(u, i);
        NothingTimes(Pow(i));
        i := i + 1;
      }
      assert u[..wds] == u;
      NoBorrow(c[..wds], borrow);
    }

    /** One word of `diff`. */
    static method SubtractWord(c: array<Word>, i: nat, xa: Word, xb: Word, borrow: int, ghost w: nat, ghost u: nat)
      returns (borrow': int)
      requires i < c.Length && 0 <= borrow <= 1 && Val(c[..i]) - Times(borrow, Pow(i)) == w - u
      modifies c
      ensures 0 <= borrow' <= 1
      ensures Val(c[..i + 1]) - Times(borrow', Pow(i + 1)) == w + Times(xa, Pow(i)) - (u + Times(xb, Pow(i)))
    {
      hide Times, Pow, Val;
      var y := xa - xb - borrow;
      borrow' := if y < 0 then 1 else 0;
      var d: Word := if y < 0 then y + BASE else y;
      DiffStep(Val(c[..i]), borrow, Pow(i), w, u, xa, xb, d, borrow');
      PowNext(i);
      Replaced(c[..], i, d);
      c[i] := d;
    }

    /** `diff`: the distance of two numbers, with the sign set when the first is the smaller. */
    static method Diff(p: Bigint, q: Bigint) returns (c: Bigint)
      requires p.Valid() && q.Valid() && p.wds >= 1 && q.wds >= 1
      ensures fresh(c) && fresh(c.x) && c.Valid() && c.wds >= 1
      ensures c.Value() == (if p.Value() >= q.Value() then p.Value() - q.Value() else q.Value() - p.Value())
      ensures c.sign == (p.Value() < q.Value())
    {
      hide Times, Pow, Val, TwoTo;
      var a, b := p, q;
      var i := a.Cmp(b);
      if i == 0 {
        c := new Bigint.Balloc(0);
        c.wds := 1;
        ZeroWords(c.x[..1]);
        OneWord();
        return;
      }
      if i < 0 {
        a, b := q, p;
      }
      if a.wds < b.wds {
        FewerWords(a.x[..a.wds], b.x[..b.wds]);
        assert false;
      }
      c := new Bigint.Balloc(a.k);
      c.sign := i < 0;
      a.SubtractInto(b, c.x);
      c.TrimTo(a.wds);
      NoValue(c.x[..c.wds]);
    }

    /** The rows of `mult`. */
    method AddRows(b: Bigint, c: array<Word>)
      requires Valid() && b.Valid() && c != x && c != b.x && wds + b.wds <= c.Length
      requires forall l :: 0 <= l < c.Length ==> c[l] == 0
      modifies c
      ensures Val(c[..wds + b.wds]) == Times(Value(), b.Value())
      ensures forall l :: wds + b.wds <= l < c.Length ==> c[l] == 0
    {
      hide Times, Pow, Val, TwoTo;
      var j := 0;
      NoRows(Value(), c[..wds]);
      assert b.x[..0] == [];
      while j < b.wds
        invariant 0 <= j <= b.wds
        invariant forall l :: wds + j <= l < c.Length ==> c[l] == 0
        invariant Val(c[..wds + j]) == Times(Value(), Val(b.x[..j]))
      {
        Taken(b.x[..], j);
        RowTaken(Value(), Val(b.x[..j]), b.x[j], Pow(j));
        if b.x[j] != 0 {
          AddRow(c, b.x[j], j);
        } else {
          Taken(c[..], wds + j);
          RowOfZero(Value(), Pow(j), Pow(wds + j));
        }
        j := j + 1;
      }
    }

    /** The end of `mult`: the words in use, without zeros at the top. */
    method TrimTo(n: nat)
      requires x.Length == TwoTo(k) && n <= x.Length && (n == 0 ==> x[0] == 0)
      modifies this`wds
      ensures Valid() && Value() == Val(old(x[..n]))
    {
      hide Times, Pow, Val;
      var wc := n;
      while wc > 0 && x[wc - 1] == 0
        invariant 0 <= wc <= x.Length && Val(x[..wc]) == Val(x[..n]) && (wc == 0 ==> x[0] == 0)
        decreases wc
      {
        Dropped(x[..wc]);
        assert x[..wc][..wc - 1] == x[..wc - 1];
        wc := wc - 1;
      }
      wds := wc;
    }

    /** `mult`. */
    static method Mult(p: Bigint, q: Bigint) returns (c: Bigint)
      requires p.Valid() && q.Valid()
      ensures fresh(c) && fresh(c.x) && c.Valid() && c.Value() == Times(p.Value(), q.Value())
    {
      hide Times, Pow, Val;
      var a, b := p, q;
      if a.wds < b.wds {
        a, b := b, a;
      }
      Commute(p.Value(), q.Value());
      var wc := a.wds + b.wds;
      c := new Bigint.Balloc(if wc > a.x.Length then a.k + 1 else a.k);
      a.AddRows(b, c.x);
      c.TrimTo(wc);
    }
  }

  lemma {:induction false} TwoToAdd(a: nat, b: nat)
    ensures TwoTo(a + b) == Times(TwoTo(a), TwoTo(b))
  {
    if a > 0 {
      TwoToAdd(a - 1, b);
      Associate(2, TwoTo(a - 1), TwoTo(b));
    }
  }

  lemma {:induction false} TwoToRises(a: nat, b: nat)
    requires a <= b
    ensures TwoTo(a) <= TwoTo(b)
  {
    if a < b {
      TwoToRises(a, b - 1);
    }
  }

  lemma {:induction false} TwoTo32()
    ensures TwoTo(4) == 16 && TwoTo(31) == 0x8000_0000 && TwoTo(32) == BASE
  {
    assert TwoTo(2) == 4;
    assert TwoTo(4) == 16;
    hide TwoTo;
    TwoToAdd(4, 4);
    TwoToAdd(8, 8);
    TwoToAdd(16, 16);
    TwoToAdd(1, 31);
    OneDoubling();
  }

  lemma {:induction false} OneDoubling()
    ensures TwoTo(1) == 2
  {
  }

  lemma {:induction false} PowIsTwoTo(n: nat)
    ensures Pow(n) == TwoTo(32 * n)
  {
    if n > 0 {
      PowIsTwoTo(n - 1);
      TwoTo32();
      TwoToAdd(32, 32 * n - 32);
    }
  }

  lemma {:induction false} ShiftBits(n: nat, bits: nat)
    requires bits < 32
    ensures TwoTo(bits) < BASE && TwoTo(32 * n + bits) == Times(TwoTo(bits), Pow(n))
  {
    TwoTo32();
    TwoToRises(bits, 31);
    PowIsTwoTo(n);
    TwoToAdd(bits, 32 * n);
  }

  lemma {:induction false} ShiftValue(v: nat, t: nat, n: nat)
    ensures Times(Times(v, t), Pow(n)) == Times(v, Times(t, Pow(n)))
  {
    Associate(v, t, Pow(n));
  }

  /** Of the two top words of a shifted number, one is not zero. */
  lemma {:induction false} ShiftedTop(x: seq<Word>, c: seq<Word>, n: nat, t: nat)
    requires |x| >= 1 && (|x| > 1 ==> x[|x| - 1] != 0) && Val(x) > 0 && t > 0
    requires |c| == n + |x| + 1 && Val(c) == Times(Times(Val(x), t), Pow(n))
    ensures c[|c| - 1] == 0 ==> c[|c| - 2] != 0 && Val(c[..|c| - 1]) == Val(c)
  {
    var d := c[..|c| - 1];
    TopWord(c);
    TopWord(d);
    TopWord(x);
    PowAdd(|x| - 1, n);
    Monotone(1, t, Val(x));
    Monotone(Pow(|x| - 1), Val(x) * t, Pow(n));
  }

  lemma {:induction false} RowStart(y: nat, pj: nat)
    ensures Val([]) == 0 && Pow(0) == 1 && Times(0, Times(1, pj)) == 0 && Times(Times(0, y), pj) == 0
  {
  }

  lemma {:induction false} RowProduct(o: Word, y: Word, cw: Word, carry: int)
    requires 0 <= carry < BASE
    ensures 0 <= (o * y + cw + carry) / BASE < BASE && 0 <= (o * y + cw + carry) % BASE < BASE
    ensures Times(o, y) + cw + carry == (o * y + cw + carry) % BASE + BASE * ((o * y + cw + carry) / BASE)
  {
    Monotone(o, BASE - 1, y);
    Monotone(0, o, y);
  }

  lemma {:induction false} Commute(a: nat, b: nat)
    ensures Times(a, b) == Times(b, a)
  {
  }

  /** Words that are all zero are worth nothing. */
  lemma {:induction false} ZeroWords(x: seq<Word>)
    requires forall i :: 0 <= i < |x| ==> x[i] == 0
    ensures Val(x) == 0
  {
    if x != [] {
      ZeroWords(x[..|x| - 1]);
    }
  }

  lemma {:induction false} NoRows(a: nat, x: seq<Word>)
    requires forall i :: 0 <= i < |x| ==> x[i] == 0
    ensures Val(x) == 0 && Times(a, Val([])) == 0
  {
    ZeroWords(x);
  }

  lemma {:induction false} RowTaken(a: nat, b: nat, y: nat, p: nat)
    ensures Times(a, b + Times(y, p)) == Times(a, b) + Times(Times(a, y), p)
  {
    Distribute(b, y * p, a);
    Associate(a, y, p);
  }

  lemma {:induction false} RowOfZero(a: nat, p: nat, r: nat)
    ensures Times(Times(a, 0), p) == 0 && Times(0, r) == 0
  {
  }

  lemma {:induction false} IsProduct(a: nat, b: nat)
    ensures Times(a, b) == a * b
  {
  }

  lemma {:induction false} NothingTimes(p: nat)
    ensures Times(0, p) == 0
  {
  }

  lemma {:induction false} CopyStep(a: nat, w: nat, pi: nat, pn: nat)
    ensures Times(a + Times(w, pi), pn) == Times(a, pn) + Times(w, Times(pi, pn))
  {
    Distribute(a, w * pi, pn);
    Associate(w, pi, pn);
  }

  lemma {:induction false} OneWord()
    ensures TwoTo(0) == 1
  {
  }

  /** What is subtracted is not more: the last borrow is 0. */
  lemma {:induction false} NoBorrow(c: seq<Word>, borrow: nat)
    requires Val(c) - Times(borrow, Pow(|c|)) >= 0 && borrow <= 1
    ensures borrow == 0 && Times(borrow, Pow(|c|)) == 0
  {
    ValBound(c);
  }

  lemma {:induction false} PowPositive(i: nat)
    ensures Pow(i) > 0
  {
  }

  lemma {:induction false} TimesSmall(v: nat)
    ensures Times(v, 0) == 0 && Times(v, 1) == v
  {
  }

  lemma {:induction false} OneMore(v: nat, q: nat)
    ensures Times(v, q + 1) == Times(v, q) + v
  {
  }

  /** The quotient of the top words, rounded down, is the quotient or one less. */
  lemma {:induction false} Estimate(u: seq<Word>, v: seq<Word>, q: nat)
    requires |u| == |v| >= 1 && 10 <= v[|v| - 1] && q == u[|u| - 1] / ((v[|v| - 1] as int) + 1) &&
             Val(u) < Times(10, Val(v))
    ensures Times(Val(v), q) <= Val(u) < Times(Val(v), q) + Val(v) + Val(v) && q <= 9
    ensures Val(u) < Times(Val(v), q) + Val(v) || q <= 8
  {
    var n := |u| - 1;
    var t, d, p := u[n], v[n], Pow(n);
    ValBound(u[..n]);
    ValBound(v[..n]);
    EstimateOn(t, d, p, Val(u), Val(v), q);
  }

  lemma {:induction false} Divides(t: nat, e: nat, q: nat)
    requires e > 0 && q == t / e
    ensures q * e <= t < q * e + e
  {
  }

  lemma {:induction false} TopQuotient(t: nat, d: nat, p: nat, u: nat, v: nat, q: nat)
    requires p > 0 && q == t / (d + 1) && u < 10 * v && t * p <= u && v < (d + 1) * p
    ensures q <= 9 && q * (d + 1) <= t < q * (d + 1) + d + 1
  {
    Divides(t, d + 1, q);
    if q >= 10 {
      Monotone(10, q, d + 1);
      Monotone(10 * (d + 1), t, p);
      Associate(10, d + 1, p);
    }
  }

  lemma {:induction false} NotTooHigh(t: nat, d: nat, p: nat, u: nat, v: nat, q: nat)
    requires q * (d + 1) <= t && t * p <= u && v <= (d + 1) * p
    ensures v * q <= u
  {
    Monotone(v, (d + 1) * p, q);
    Associate(q, d + 1, p);
    Monotone(q * (d + 1), t, p);
  }

  lemma {:induction false} OneTooLow(t: nat, d: nat, p: nat, u: nat, v: nat, q: nat)
    requires d >= 10 && q <= 9 && t < q * (d + 1) + d + 1 && u < (t + 1) * p && d * p <= v
    ensures u < v * (q + 2)
  {
    assert (q + 2) * d == q * d + 2 * d && q * (d + 1) == q * d + q by {
      Distribute(q, 2, d);
      Distribute(d, 1, q);
    }
    Monotone(t + 1, (q + 2) * d, p);
    Associate(q + 2, d, p);
    Monotone(d * p, v, q + 2);
  }

  lemma {:induction false} EstimateOn(t: nat, d: nat, p: nat, u: nat, v: nat, q: nat)
    requires d >= 10 && p > 0 && q == t / (d + 1) && u < 10 * v
    requires t * p <= u < t * p + p && d * p <= v < d * p + p
    ensures v * q <= u < v * q + v + v && q <= 9
    ensures u < v * q + v || q <= 8
  {
    Distribute(d, 1, p);
    Distribute(t, 1, p);
    TopQuotient(t, d, p, u, v, q);
    NotTooHigh(t, d, p, u, v, q);
    OneTooLow(t, d, p, u, v, q);
    Distribute(q, 2, v);
    if q == 9 {
      assert v * q == 9 * v;
    }
  }

  /** A number of fewer words is smaller. */
  lemma {:induction false} FewerWords(u: seq<Word>, v: seq<Word>)
    requires |u| < |v| && (|v| > 1 ==> v[|v| - 1] != 0) && (|v| == 1 ==> Val(v) > 0)
    ensures Val(u) < Val(v)
  {
    ValBound(u);
    PowMonotone(|u|, |v| - 1);
    TopWord(v);
  }

  lemma {:induction false} NoValue(x: seq<Word>)
    ensures |x| == 0 ==> Val(x) == 0
  {
  }

  lemma {:induction false} Dropped(x: seq<Word>)
    requires x != [] && x[|x| - 1] == 0
    ensures Val(x) == Val(x[..|x| - 1])
  {
    TopWord(x);
  }

  lemma {:induction false} NothingTaken(q: nat)
    ensures Val([]) == 0 && Times(0, Pow(0)) == 0 && Times(0, q) == 0
  {
  }

  /** When what is subtracted is not more than the number, nothing is borrowed in the end. */
  lemma {:induction false} NothingLeft(was: seq<Word>, x: seq<Word>, carry: nat, borrow: nat, u: nat)
    requires |was| == |x| && u <= Val(was)
    requires Val(x) - Times(carry, Pow(|x|)) - Times(borrow, Pow(|x|)) == Val(was) - u
    ensures Val(x) == Val(was) - u
  {
    ValBound(x);
    if carry > 0 {
      Monotone(1, carry, Pow(|x|));
    }
    if borrow > 0 {
      Monotone(1, borrow, Pow(|x|));
    }
  }

  lemma {:induction false} NoWords(m: nat, a: nat)
    ensures Val([]) == 0 && Times(a, Pow(0)) == a && Times(0, m) == 0
  {
  }

  lemma {:induction false} PowNext(i: nat)
    ensures Pow(i + 1) == Times(BASE, Pow(i))
  {
  }

  /** Word `i` replaced by `w`: the words before it stay, and it counts with its weight. */
  lemma {:induction false} Replaced(x: seq<Word>, i: nat, w: Word)
    requires i < |x|
    ensures Val(x[i := w][..i + 1]) == Val(x[..i]) + Times(w, Pow(i))
  {
    assert x[i := w][..i + 1] == x[..i] + [w];
    ValSnoc(x[..i], w);
  }

  lemma {:induction false} WordProduct(o: Word, m: Word, carry: int)
    requires 0 <= carry < BASE
    ensures 0 <= o * m + carry && 0 <= (o * m + carry) / BASE < BASE && 0 <= (o * m + carry) % BASE < BASE
    ensures Times(o, m) + carry == (o * m + carry) % BASE + BASE * ((o * m + carry) / BASE)
  {
    Monotone(o, BASE - 1, m);
    Distribute(BASE, -1, m);
    assert o * m >= 0 by {
      Monotone(0, o, m);
    }
    assert o * m + carry < BASE * BASE by {
      Monotone(m, BASE - 1, BASE);
    }
  }

  lemma {:induction false} Taken(x: seq<Word>, i: nat)
    requires i < |x|
    ensures Val(x[..i + 1]) == Val(x[..i]) + Times(x[i], Pow(i))
  {
    assert x[..i + 1] == x[..i] + [x[i]];
    ValSnoc(x[..i], x[i]);
  }

  /** A number that has not become smaller keeps its top word. */
  lemma {:induction false} TopKept(was: seq<Word>, x: seq<Word>, m: nat, carry: nat)
    requires |x| == |was| >= 1 && m >= 1 && Val(x) + Times(carry, Pow(|x|)) >= Times(Val(was), m)
    ensures was[|was| - 1] != 0 && carry == 0 ==> x[|x| - 1] != 0
    ensures carry == 0 ==> Times(carry, Pow(|x|)) == 0
  {
    TopWord(was);
    TopWord(x);
    Monotone(1, m, Val(was));
  }

  /** What a factor of 0 leaves: one word, and zeros above it. */
  lemma {:induction false} OneWordLeft(x: seq<Word>, v: nat, carry: nat, a: Word)
    requires x != [] && Val(x) + Times(carry, Pow(|x|)) == Times(v, 0) + a
    ensures carry == 0 && Times(carry, Pow(|x|)) == 0 && (|x| > 1 ==> x[|x| - 1] == 0)
  {
    PowNext(0);
    PowMonotone(1, |x|);
    if carry > 0 {
      Monotone(1, carry, Pow(|x|));
    }
    TopWord(x);
    if |x| > 1 {
      PowMonotone(1, |x| - 1);
    }
  }

  lemma {:induction false} OnlyZero(x: seq<Word>)
    requires x != [] && Val(x) == 0 && (|x| > 1 ==> x[|x| - 1] != 0)
    ensures |x| == 1
  {
    TopWord(x);
    PowPositive(|x| - 1);
  }

  lemma {:induction false} ZeroTops(c: seq<Word>)
    requires |c| >= 2 && Val(c) == 0
    ensures c[|c| - 1] == 0 && c[|c| - 2] == 0 && Val(c[..|c| - 1]) == 0
  {
    TopWord(c);
    PowPositive(|c| - 1);
    TopWord(c[..|c| - 1]);
    PowPositive(|c| - 2);
  }

  lemma {:induction false} SmallerQuotient(a: nat, d: nat)
    requires d > 0
    ensures 0 <= a / d <= a
  {
    var q := a / d;
    if q > a {
      Monotone(1, d, q);
    }
  }
}
