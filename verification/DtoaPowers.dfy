/** The cached chain of powers of 5 of dtoa.c, and multiplication by any power of 5. */
module DtoaPowers {
  import opened Basics
  import opened DtoaWords
  import opened DtoaBigint

  function Exp(b: nat, n: nat): nat {
    if n == 0 then 1 else Times(b, Exp(b, n - 1))
  }

  lemma {:induction false} ExpAdd(b: nat, m: nat, n: nat)
    ensures Exp(b, m + n) == Times(Exp(b, m), Exp(b, n))
  {
    if m > 0 {
      ExpAdd(b, m - 1, n);
      Associate(b, Exp(b, m - 1), Exp(b, n));
    }
  }

  lemma {:induction false} ExpSquare(b: nat, n: nat)
    ensures Exp(Times(b, b), n) == Exp(b, 2 * n)
  {
    if n > 0 {
      ExpSquare(b, n - 1);
      assert Exp(b, 2 * n) == Times(b, Times(b, Exp(b, 2 * n - 2)));
      Associate(b, b, Exp(b, 2 * n - 2));
    }
  }

  lemma {:induction false} ExpExp(b: nat, m: nat, n: nat)
    ensures Exp(Exp(b, m), n) == Exp(b, m * n)
  {
    if n > 0 {
      ExpExp(b, m, n - 1);
      ExpAdd(b, m, m * (n - 1));
      Distribute(n - 1, 1, m);
    }
  }

  /** The value of the `i`-th node of the chain: 625 squared `i` times. */
  function Node(i: nat): nat {
    if i == 0 then 625 else Times(Node(i - 1), Node(i - 1))
  }

  /** The `i`-th node is 5 to the power 4 times 2 to the `i`. */
  lemma {:induction false} NodeIsPower(i: nat)
    ensures Node(i) == Exp(5, 4 * TwoTo(i))
  {
    if i > 0 {
      NodeIsPower(i - 1);
      ExpAdd(5, 4 * TwoTo(i - 1), 4 * TwoTo(i - 1));
    } else {
      FirstNode();
    }
  }

  lemma {:induction false} FirstNode()
    ensures Exp(5, 4) == 625 && Exp(5, 3) == 125 && Exp(5, 2) == 25 && Exp(5, 1) == 5 && Exp(5, 0) == 1
  {
    assert Exp(5, 0) == 1;
    assert Exp(5, 1) == Times(5, Exp(5, 0)) == 5;
    assert Exp(5, 2) == Times(5, Exp(5, 1)) == 25;
    assert Exp(5, 3) == Times(5, Exp(5, 2)) == 125;
    assert Exp(5, 4) == Times(5, Exp(5, 3)) == 625;
  }

  /** Half of an exponent, for the square. */
  lemma {:induction false} Halved(b: nat, n: nat)
    ensures Exp(b, n) == Times(if n % 2 == 1 then b else 1, Exp(Times(b, b), n / 2))
  {
    ExpSquare(b, n / 2);
    if n % 2 == 1 {
      assert n == 1 + 2 * (n / 2);
    }
  }

  class Powers {
    /** `p5s`, with its `next` pointers as a sequence. */
    var p5s: seq<Bigint>

    constructor ()
      ensures Valid() && p5s == []
    {
      p5s := [];
    }

    ghost function Arrays(): set<object>
      reads this, p5s
    {
      set i | 0 <= i < |p5s| :: p5s[i].x
    }

    ghost predicate Valid()
      reads this, p5s, Arrays()
    {
      forall i :: 0 <= i < |p5s| ==> p5s[i].Valid() && p5s[i].Value() == Node(i)
    }

    /** The chain has its `i`-th node, computed from the one before if it is not there yet. */
    method Extend(i: nat)
      requires Valid() && i <= |p5s|
      modifies this
      ensures Valid() && i < |p5s| && old(p5s) <= p5s
      ensures forall j :: |old(p5s)| <= j < |p5s| ==> fresh(p5s[j]) && fresh(p5s[j].x)
    {
      hide Times;
      if i == |p5s| {
        var p: Bigint;
        if i == 0 {
          p := new Bigint.I2b(625);
        } else {
          p := Bigint.Mult(p5s[i - 1], p5s[i - 1]);
        }
        p5s := p5s + [p];
      }
    }

    /** `pow5mult`: the number times 5 to the `k`, whatever part of the chain is there. */
    method Pow5Mult(b: Bigint, k: nat) returns (r: Bigint)
      requires Valid() && b.Valid() && b.wds >= 1 && b !in p5s && b.x !in Arrays()
      modifies this, b, b.x
      ensures Valid() && r.Valid() && old(p5s) <= p5s && r !in p5s && r.x !in Arrays()
      ensures r.Value() == Times(old(b.Value()), Exp(5, k)) && (b.x == old(b.x) || fresh(b.x))
      ensures r == b || (fresh(r) && fresh(r.x))
    {
      hide Times, Exp, Node, Val, Pow, TwoTo;
      FirstNode();
      TimesSmall(b.Value());
      var rest := k % 4;
      if rest != 0 {
        b.MultAdd(if rest == 1 then 5 else if rest == 2 then 25 else 125, 0);
      }
      r := b;
      LastFours(old(b.Value()), k);
      if k / 4 == 0 {
        ExpZero(Node(0), r.Value());
        return;
      }
      r := TimesFours(b, k / 4);
    }

    /** The node is multiplied in if the exponent left is odd. */
    method Factor(r: Bigint, i: nat, kk: nat) returns (r': Bigint)
      requires Valid() && r.Valid() && i < |p5s|
      ensures r'.Valid() && (r' == r || (fresh(r') && fresh(r'.x)))
      ensures Times(r'.Value(), Exp(Node(i + 1), kk / 2)) == Times(r.Value(), Exp(Node(i), kk))
    {
      hide Times, Exp, Node, Val, Pow, TwoTo;
      Halve(r.Value(), i, kk);
      r' := r;
      if kk % 2 == 1 {
        r' := Bigint.Mult(r, p5s[i]);
      }
    }

    /** The loop of `pow5mult`: the number times 625 to the `n`. */
    method TimesFours(b: Bigint, n: nat) returns (r: Bigint)
      requires Valid() && b.Valid() && b !in p5s && b.x !in Arrays() && n > 0
      modifies this
      ensures Valid() && r.Valid() && old(p5s) <= p5s && r !in p5s && r.x !in Arrays()
      ensures r.Value() == Times(b.Value(), Exp(Node(0), n))
      ensures r == b || (fresh(r) && fresh(r.x))
    {
      hide Times, Exp, Node, Val, Pow, TwoTo, Valid;
      r := b;
      var kk, i := n, 0;
      Extend(0);
      while true
        invariant Valid() && r.Valid() && i < |p5s| && r !in p5s && r.x !in Arrays() && old(p5s) <= p5s && kk > 0
        invariant r == b || (fresh(r) && fresh(r.x))
        invariant Times(r.Value(), Exp(Node(i), kk)) == Times(old(b.Value()), Exp(Node(0), n))
        decreases kk
      {
        r := Factor(r, i, kk);
        kk := kk / 2;
        if kk == 0 {
          ExpZero(Node(i + 1), r.Value());
          break;
        }
        Extend(i + 1);
        i := i + 1;
      }
    }
  }

  lemma {:induction false} ExpZero(b: nat, v: nat)
    ensures Times(v, Exp(b, 0)) == v
  {
  }

  /** A step of the loop: the node is multiplied in if the exponent is odd, and the next node stands for half of it. */
  lemma {:induction false} Halve(v: nat, i: nat, kk: nat)
    ensures Times(v, Exp(Node(i), kk)) == Times(if kk % 2 == 1 then Times(v, Node(i)) else v, Exp(Node(i + 1), kk / 2))
  {
    Halved(Node(i), kk);
    Associate(v, Node(i), Exp(Node(i + 1), kk / 2));
  }

  /** A power of 5 is a power of 625 and at most three more factors. */
  lemma {:induction false} LastFours(v: nat, k: nat)
    ensures Times(Times(v, Exp(5, k % 4)), Exp(Node(0), k / 4)) == Times(v, Exp(5, k))
  {
    FirstNode();
    ExpExp(5, 4, k / 4);
    ExpAdd(5, k % 4, 4 * (k / 4));
    Associate(v, Exp(5, k % 4), Exp(Node(0), k / 4));
  }
}
